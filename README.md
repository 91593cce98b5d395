# Notes application: a verified model of its core

This project models the core of a small note-taking web application and
proves properties of that model. The application has two parts:

- A REST service. It validates create and update requests, keeps notes in a
  database keyed by id, lists them newest first, and serves a distinct,
  sorted tag list.
- A single-page client with three parts:
  - the `useNotes` hook, which holds a local copy of notes and tags and
    changes it only after a server call has answered;
  - the note card, with a markdown-syntax heuristic and a confirm step
    before delete;
  - the add/edit form.

Modules, one per concern:

- `Wrappers`: `Option` and `Result`.
- `JsText`: the JavaScript string semantics used by the application:
  - the exact `\s` / `trim` whitespace set and the line terminators;
  - `String.prototype.trim`;
  - the comparison the default `Array.prototype.sort` uses, proved to be a
    total order.
- `TagSort`:
  - `sort()` on strings, modelled as insertion sort and proved to return a
    sorted permutation, which is unique;
  - `[...new Set(xs)]`.
- `Server`: the models of `backend/src/server.ts`:
  - the validation schemas;
  - each handler as a pure step function `(database, request) -> (reply,
    database)`;
  - the `NoteStore` class, whose methods are the handlers that change the
    database in place, each proved equal to its step function;
  - `findMany` as a loop that enumerates the map in no particular order.
- `NoteTypes`: the client's shared shapes.
- `UseNotes`: `react-app/src/hooks/useNotes.tsx`.
  - The list transforms are pure functions.
  - `NotesCache` is a class whose methods are the hook's actions.
  - Each server call is a `Result` parameter: what the call returned, or
    what it threw.
  - A ghost out-parameter `during` records the action flags while the call
    is pending.
- `NoteCard`: `react-app/src/components/NoteCard.tsx`.
  - Each of the nine regular expressions is written as "a match position
    exists", following ECMAScript: `.` stops at line terminators, and `^`
    with the `m` flag follows a line terminator.
  - `CardState` holds the card's state.
- `AddNotesForm`: `react-app/src/components/AddNotesForm.tsx`. `NoteForm`
  is a class.

Async handlers that another handler can observe while they wait are split
at their `await` into `Begin…` and `Finish…` methods: the form's submit and
the card's delete confirmation. The parts in between are the handlers that
run while `submitting` or `deleting` is set.

An update or delete of a missing id answers 500 "Failed to update note" or
"Failed to delete note". This is the same reply as any other database
failure; the service has no separate not-found reply.

In `deleteNote`, if the delete succeeds but the follow-up tag fetch fails,
the note has already been removed from `notes`. The error is then recorded
and rethrown (`UseNotes.NotesCache.DeleteNote`).

## Model

| member | source | states |
|---|---|---|
| `JsText.TrimStart` | react-app/src/components/AddNotesForm.tsx:67 | `trim`'s leading part: the result is a suffix of the input, every dropped character is whitespace, and the result does not start with whitespace |
| `JsText.TrimEnd` | react-app/src/components/AddNotesForm.tsx:67 | `trim`'s trailing part: the result is a prefix of the input, every dropped character is whitespace, and the result does not end with whitespace |
| `JsText.Trim` | react-app/src/components/AddNotesForm.tsx:67 | `String.prototype.trim`: `TrimEnd` after `TrimStart`, whose contracts state the result |
| `JsText.IsBlank` | react-app/src/components/AddNotesForm.tsx:67 | `!s.trim()`: the trimmed string is empty; `BlankIffNoText` states what it means |
| `JsText.BlankIffNoText` | react-app/src/components/AddNotesForm.tsx:67 | `!s.trim()` holds exactly when every character of `s` is JavaScript whitespace |
| `JsText.PrecedesReflexive` | backend/src/server.ts:116 | the default sort comparison is reflexive |
| `JsText.PrecedesAntisymmetric` | backend/src/server.ts:116 | the default sort comparison is antisymmetric |
| `JsText.PrecedesTransitive` | backend/src/server.ts:116 | the default sort comparison is transitive |
| `JsText.PrecedesTotal` | backend/src/server.ts:116 | any two strings are comparable |
| `TagSort.Sort` | backend/src/server.ts:116 | `sort()` returns an ordered permutation of its input |
| `TagSort.SortedUnique` | backend/src/server.ts:116 | two ordered permutations of the same multiset are equal, so the sort result is fully determined |
| `TagSort.SortIgnoresOrder` | backend/src/server.ts:116 | sorting permuted inputs gives the same result |
| `TagSort.Dedupe` | backend/src/server.ts:116 | `[...new Set(xs)]` has no repeats and exactly the members of `xs` |
| `TagSort.SortKeepsNoDuplicates` | backend/src/server.ts:116 | sorting a repeat-free list keeps it repeat-free |
| `TagSort.DistinctSorted` | backend/src/server.ts:115-116 | the result is ordered, has no repeats, and has exactly the input's members |
| `TagSort.DistinctSortedDependsOnMembersOnly` | backend/src/server.ts:115-116 | inputs with the same members give the same distinct sorted list |
| `Server.ParseCreate` | backend/src/server.ts:11-15 | a body is accepted exactly when title and content are present and non-empty; the accepted fields are the body's, and omitted tags become `[]` |
| `Server.UpdateAccepted` | backend/src/server.ts:17-21 | `updateNoteSchema`: a title or content that is present must be non-empty; `UpdateStep` states its effect |
| `Server.CreateStep` | backend/src/server.ts:39-63 | validation runs first: a rejected body gives 400 "Validation error" and leaves the database unchanged; otherwise the note is stored under a new id with exactly the validated fields and equal timestamps and returned with 201, and no other note changes; a failing insert gives 500 "Failed to create note"; the store invariant is kept |
| `Server.Patch` | backend/src/server.ts:72-75 | only the supplied fields change; id and `createdAt` are kept and `updatedAt` is refreshed |
| `Server.UpdateStep` | backend/src/server.ts:66-89 | a present but empty title or content gives 400 and no change; a missing id gives 500 "Failed to update note" and no change; otherwise only that note is patched, it is returned with 200, and the invariant is kept |
| `Server.DeleteStep` | backend/src/server.ts:92-104 | a missing id gives 500 "Failed to delete note" and no change; otherwise exactly that id is removed, every other note is unchanged, and the reply is 200 "Note deleted successfully" |
| `Server.OrderNewestFirst` | backend/src/server.ts:26-30 | `orderBy: createdAt desc` gives a permutation of the rows ordered by `createdAt`, newest first |
| `Server.AllTags` | backend/src/server.ts:115 | `flatMap` holds exactly the tags found in some row |
| `Server.TagList` | backend/src/server.ts:115-116 | the tag list is ordered, repeat-free, and holds exactly the tags of some row |
| `Server.TagListIgnoresRowOrder` | backend/src/server.ts:109-116 | the tag list does not depend on the order of the unordered `findMany` rows |
| `Server.DeleteDropsExclusiveTags` | backend/src/server.ts:96-98 | after a delete, a tag remains in the store exactly when another note carries it |
| `Server.CreateUpdateDeleteScenario` | backend/src/server.ts:39-104 | create, then tag-only update, then delete: fields kept, `updatedAt` advanced, the removed tag gone from the store, and the database empty at the end |
| `Server.NoteStore.Create` | backend/src/server.ts:39-63 | the handler's reply and new database are those of `CreateStep`; the store invariant is preserved |
| `Server.NoteStore.Update` | backend/src/server.ts:66-89 | the handler's reply and new database are those of `UpdateStep`; the store invariant is preserved |
| `Server.NoteStore.Delete` | backend/src/server.ts:92-104 | the handler's reply and new database are those of `DeleteStep`; the store invariant is preserved |
| `Server.NoteStore.FindMany` | backend/src/server.ts:109-113 | every stored note appears exactly once, and nothing else appears |
| `Server.NoteStore.List` | backend/src/server.ts:24-36 | 200 with every stored note exactly once, ordered newest first |
| `Server.NoteStore.Tags` | backend/src/server.ts:107-123 | 200 with an ordered, repeat-free list holding exactly the tags of the stored notes |
| `NoteTypes.MessageOr` | react-app/src/hooks/useNotes.tsx:69 | the thrown `Error`'s message, or the fallback text for any other thrown value |
| `UseNotes.ConvertApiNote` | react-app/src/hooks/useNotes.tsx:6-10 | id, title, content, tags and `createdAt` are kept; `updatedAt` falls back to `createdAt` when it is missing or empty |
| `UseNotes.ConvertAll` | react-app/src/hooks/useNotes.tsx:39 | element-wise conversion, same length |
| `UseNotes.ReplaceById` | react-app/src/hooks/useNotes.tsx:89-91 | same length and order; exactly the notes with the edited id are replaced |
| `UseNotes.RemoveById` | react-app/src/hooks/useNotes.tsx:113 | the survivors are exactly the notes with another id |
| `UseNotes.RemoveByIdSplits` | react-app/src/hooks/useNotes.tsx:113 | removal distributes over concatenation, so the survivors keep their order |
| `UseNotes.RemoveByIdAbsent` | react-app/src/hooks/useNotes.tsx:113 | a list without that id is returned unchanged |
| `UseNotes.NewTags` | react-app/src/hooks/useNotes.tsx:63 | the unknown submitted tags, with their repeats kept |
| `UseNotes.MergeTags` | react-app/src/hooks/useNotes.tsx:63-66 | unchanged when every submitted tag is known; otherwise the sorted old tags plus the unknown submitted ones; the members are the old tags and the submitted tags |
| `UseNotes.MergeKeepsRepeats` | react-app/src/hooks/useNotes.tsx:63-66 | a new tag submitted k times appears k times after the merge |
| `UseNotes.MergeRepeatExample` | react-app/src/hooks/useNotes.tsx:63-66 | merging `["x", "x"]` into no tags gives `["x", "x"]` |
| `UseNotes.MergeKeepsTagListShape` | react-app/src/hooks/useNotes.tsx:94-97 | merging repeat-free tags into a sorted, repeat-free tag list keeps it sorted and repeat-free |
| `UseNotes.NotesCache.constructor` | react-app/src/hooks/useNotes.tsx:13-25 | empty lists, `loading` true, no error, no action in flight |
| `UseNotes.NotesCache.FetchAll` | react-app/src/hooks/useNotes.tsx:129-147 | on success both lists are replaced; on failure they are kept and `error` is set; `loading` ends false |
| `UseNotes.NotesCache.LoadData` | react-app/src/hooks/useNotes.tsx:28-50 | the mount fetch: as `FetchAll`, with "Failed to load data" as the fallback text |
| `UseNotes.NotesCache.RefreshData` | react-app/src/hooks/useNotes.tsx:129-147 | as `FetchAll`, with "Failed to refresh data" as the fallback text; it never rethrows |
| `UseNotes.NotesCache.AddNote` | react-app/src/hooks/useNotes.tsx:52-74 | only `add` is set during the call and it ends false; on success the returned note is prepended and the tags merged; on failure the lists are kept, the error is recorded ("Failed to add note" as the fallback) and rethrown |
| `UseNotes.NotesCache.EditNote` | react-app/src/hooks/useNotes.tsx:76-105 | only `edit` is set during the call and it ends false; on success the notes with that id are replaced and the tags merged; on failure the lists are kept, the error is recorded and rethrown |
| `UseNotes.NotesCache.DeleteNote` | react-app/src/hooks/useNotes.tsx:107-125 | only `delete` is set during the calls and it ends false; a failed delete keeps both lists and rethrows; a successful delete removes that id, then tags are replaced by the server's list, or kept with the error rethrown if that fetch fails |
| `NoteCard.Header` | react-app/src/components/NoteCard.tsx:56 | `/^#{1,6}\s/m`: one to six `#` at a line start, then whitespace; the properties are the lemmas below |
| `NoteCard.Bold` | react-app/src/components/NoteCard.tsx:57 | `/\*\*.*\*\*/`: two `**` pairs with no line terminator between them; the properties are the lemmas below |
| `NoteCard.Italic` | react-app/src/components/NoteCard.tsx:58 | `/\*.*\*/`: two `*` with no line terminator between them; the properties are the lemmas below |
| `NoteCard.InlineCode` | react-app/src/components/NoteCard.tsx:59 | `` /`.*`/ ``: two backticks with no line terminator between them; the properties are the lemmas below |
| `NoteCard.CodeBlock` | react-app/src/components/NoteCard.tsx:60 | a fence of three backticks followed, anywhere later, by another; the properties are the lemmas below |
| `NoteCard.ListItem` | react-app/src/components/NoteCard.tsx:61 | `/^\s*[-*+]\s/m`: a bullet after optional whitespace at a line start, then whitespace; the properties are the lemmas below |
| `NoteCard.NumberedItem` | react-app/src/components/NoteCard.tsx:62 | `/^\s*\d+\.\s/m`: digits and a dot after optional whitespace at a line start, then whitespace; the properties are the lemmas below |
| `NoteCard.Link` | react-app/src/components/NoteCard.tsx:63 | `/\[.*\]\(.*\)/`: `[`, `](` and `)` in order, with no line terminator between them; the properties are the lemmas below |
| `NoteCard.Blockquote` | react-app/src/components/NoteCard.tsx:64 | `/^\s*>/m`: `>` after optional whitespace at a line start; the properties are the lemmas below |
| `NoteCard.HasMarkdownSyntax` | react-app/src/components/NoteCard.tsx:54-68 | `markdownPatterns.some(p => p.test(content))`: one of the nine patterns matches; `SevenPatternsSuffice` and `HeaderExamples` state its properties |
| `NoteCard.BoldImpliesItalic` | react-app/src/components/NoteCard.tsx:57-58 | every bold match contains an italic match |
| `NoteCard.CodeBlockImpliesInlineCode` | react-app/src/components/NoteCard.tsx:59-60 | every fenced-block match contains an inline-code match |
| `NoteCard.SevenPatternsSuffice` | react-app/src/components/NoteCard.tsx:54-68 | `hasMarkdownSyntax` holds exactly when one of the other seven patterns matches |
| `NoteCard.TwoStarsOnOneLine` | react-app/src/components/NoteCard.tsx:58 | two `*` with no line break between them make the content markdown |
| `NoteCard.NoHeaderAfterSevenHashes` | react-app/src/components/NoteCard.tsx:56 | seven `#` at a line start never match the header pattern there |
| `NoteCard.HeaderExamples` | react-app/src/components/NoteCard.tsx:56 | `"###### x"` is markdown and `"####### x"` is not |
| `NoteCard.RenderedMarkdownShown` | react-app/src/components/NoteCard.tsx:117 | the condition for rendering markdown: `showMarkdown` and the toggle being offered; `CardState.ToggleMarkdown` states how it changes |
| `NoteCard.MarkdownToggleShown` | react-app/src/components/NoteCard.tsx:70 | `shouldShowMarkdownToggle`: the content looks like markdown |
| `NoteCard.ActionsDisabled` | react-app/src/components/NoteCard.tsx:71 | `isActionDisabled`: the `isDeleting` prop or the card's own pending delete; `CardState.ToggleMarkdown`, `Edit` and `DeleteClick` do nothing while it holds |
| `NoteCard.UpdatedLabelShown` | react-app/src/components/NoteCard.tsx:145 | the "Updated" label's condition: the two timestamps differ |
| `NoteCard.UpdatedLabelFromService` | react-app/src/components/NoteCard.tsx:145 | for a note from the service, "Updated" shows exactly when the service sent an `updatedAt` that differs from `createdAt` |
| `NoteCard.CardState.constructor` | react-app/src/components/NoteCard.tsx:14-17 | `showMarkdown` starts on; the modal is closed and nothing is being deleted |
| `NoteCard.CardState.ReceiveIsDeleting` | react-app/src/components/NoteCard.tsx:14 | a new prop value; the card's own state is unchanged |
| `NoteCard.CardState.Disabled` | react-app/src/components/NoteCard.tsx:71 | `isActionDisabled` over the card's state |
| `NoteCard.CardState.ShowsRendered` | react-app/src/components/NoteCard.tsx:116-117 | the content area shows rendered markdown |
| `NoteCard.CardState.ToggleMarkdown` | react-app/src/components/NoteCard.tsx:83-92 | when the eye button is shown and enabled, the click flips `showMarkdown` and the rendered/raw view; while actions are disabled or the content has no markdown it changes nothing; content without markdown is never rendered; the other fields are unchanged |
| `NoteCard.CardState.Edit` | react-app/src/components/NoteCard.tsx:40-42 | `onEdit` receives the card's note exactly when the card's actions are enabled; a disabled button calls nothing |
| `NoteCard.CardState.DeleteClick` | react-app/src/components/NoteCard.tsx:19-21 | opens the confirmation exactly when the card's actions are enabled, and changes nothing else |
| `NoteCard.CardState.DeleteCancel` | react-app/src/components/NoteCard.tsx:36-38 | only closes the confirmation; nothing is deleted |
| `NoteCard.CardState.BeginDeleteConfirm` | react-app/src/components/NoteCard.tsx:23-26 | marks the card as deleting, which disables its actions (`Disabled()`), and passes the note's id to `onDelete` |
| `NoteCard.CardState.FinishDeleteConfirm` | react-app/src/components/NoteCard.tsx:27-33 | the confirmation closes only if `onDelete` succeeded; `deleting` ends false either way |
| `AddNotesForm.SubmitEnabled` | react-app/src/components/AddNotesForm.tsx:234 | the submit button's `disabled` attribute, negated; `SubmitEnabledIff` states what it means |
| `AddNotesForm.SubmitEnabledIff` | react-app/src/components/AddNotesForm.tsx:234 | submit is enabled exactly when not submitting and both title and content contain a non-whitespace character |
| `AddNotesForm.ChooseCall` | react-app/src/components/AddNotesForm.tsx:76-80 | `onEditNote` with the edited id and the form data when an `editingNote` and an `onEditNote` are both present; `onAddNote(formData)` otherwise |
| `AddNotesForm.NoteForm.Valid` | react-app/src/components/AddNotesForm.tsx:22-30 | the form's invariant: a submission runs only in an open form, and a closed form is empty with no error; established by the constructor and kept by every handler |
| `AddNotesForm.NoteForm.constructor` | react-app/src/components/AddNotesForm.tsx:22-30 | closed, empty, idle, no error; `Valid()` holds |
| `AddNotesForm.NoteForm.ReceiveEditingNote` | react-app/src/components/AddNotesForm.tsx:35-44 | a note copies its title, content and tags into the form and opens it |
| `AddNotesForm.NoteForm.ClickAddButton` | react-app/src/components/AddNotesForm.tsx:118-122 | opens the form only outside edit mode and while not loading |
| `AddNotesForm.NoteForm.ChangeTitle` | react-app/src/components/AddNotesForm.tsx:176-178 | only in the open form: sets the title unless submitting; `Valid()` is kept |
| `AddNotesForm.NoteForm.ChangeContent` | react-app/src/components/AddNotesForm.tsx:195-197 | only in the open form: sets the content unless submitting; `Valid()` is kept |
| `AddNotesForm.NoteForm.ChangeTags` | react-app/src/components/AddNotesForm.tsx:111-113 | only in the open form: sets the tags unless submitting; `Valid()` is kept |
| `AddNotesForm.NoteForm.BeginSubmit` | react-app/src/components/AddNotesForm.tsx:65-80 | a blank title or content sets "Title and content are required" and calls nothing; otherwise `submitting` is set, the error cleared, and the chosen callback invoked with the form data; an enabled submit always reaches the callback; only in the open form, and `Valid()` is kept |
| `AddNotesForm.NoteForm.ResetForm` | react-app/src/components/AddNotesForm.tsx:90-97 | empties and closes the form, clears the error, and calls `onCancelEdit` when given |
| `AddNotesForm.NoteForm.FinishSubmit` | react-app/src/components/AddNotesForm.tsx:81-88 | success resets the form; failure keeps it open with the data unchanged and shows the message ("Failed to save note" as the fallback); `submitting` ends false; it follows a `BeginSubmit` that returned a call, and `Valid()` is kept |
| `AddNotesForm.NoteForm.CloseModal` | react-app/src/components/AddNotesForm.tsx:105-109 | only in the open form: no effect while submitting; otherwise resets the form; `Valid()` is kept |
| `AddNotesForm.NoteForm.PressEscape` | react-app/src/components/AddNotesForm.tsx:47-52 | closes only an open form that is not submitting |
| `AddNotesForm.NoteForm.ClickBackdrop` | react-app/src/components/AddNotesForm.tsx:99-103 | only in the open form: closes only on a click on the backdrop itself, and never while submitting; `Valid()` is kept |

## Left out

- Express plumbing is not modelled: routing, `cors`, JSON body parsing, `app.listen`, the `PORT` variable, `console` logging and the health route. This is framework I/O.
- The 500 replies of GET /notes and GET /tags ("Failed to fetch notes", "Failed to fetch tags") are not modelled. The map store cannot fail to be read.
- The database is a map. `db.ts` and the Prisma schema are not part of this model, so:
  - the generated id and the timestamps are parameters;
  - an insert under an id that is already in use stands for a failing insert;
  - `updatedAt` is assumed to be refreshed on every successful update.
- Server.UpdateStep: `updatedAt >= createdAt` is not enforced, because the clock is a parameter. It holds whenever the clock does not go back.
- Zod is modelled only through its min-length, optional and default rules. Not modelled: request fields of the wrong JSON type, unknown-key stripping, and the `details` list of a validation error.
- `react-app/src/service/api.ts` (axios, timeout, logging, error classification) is not part of this model. A failing call is the value it throws: an `Error` with a message, or something else.
- `Promise.all` in the initial load and refresh is one call that gives both lists or fails.
- Overlapping async actions and unmount races are not modelled; each action runs alone. This also leaves out the stale `tags` closure read by `addNote` and `editNote` while another action changes `tags`.
- `getAllTags` is not a separate member: it returns the `tags` field, which `NotesCache` exposes directly.
- The `loading` flag while a refresh is pending is not recorded separately. The model only says that `loading` ends false.
- App.tsx, LoadingSkeleton.tsx and ErrorMessage.tsx are not modelled; they are presentation only. Also not modelled: `formatDate` (locale formatting), styling, and icons.
- MarkdownRenderer, TagAutoComplete, DeleteConfirmModal, useSearch and types/Notes.ts are not part of this model.
- The DOM side effects of the form are not modelled: registering the keydown listener and setting `document.body.style.overflow`.
- Timestamps are integers (milliseconds), not `Date` objects. Invalid dates (`NaN`) are not modelled.
- Strings are sequences of Unicode scalar values. `Precedes` compares code points, while JavaScript compares UTF-16 code units; the two orders differ only between characters above U+FFFF and characters in U+E000–U+FFFF.
- `CardState.isDeleting` is a boolean, while the source types the prop as `any`. Only its truthiness is used.
