/**
 * The notes REST service: request validation, the note store behind the
 * create / update / delete / list handlers, and the distinct-tag listing.
 * The database is a map from id to note; a failing database call becomes
 * the handler's generic 500 reply.
 */
module Server {
  import opened Wrappers
  import opened JsText
  import opened TagSort

  type NoteId = JsString

  /** A stored note; timestamps are milliseconds. */
  datatype Note = Note(
    id: NoteId,
    title: JsString,
    content: JsString,
    tags: seq<JsString>,
    createdAt: int,
    updatedAt: int)

  /** Parsed JSON bodies: a key that is absent is `None`. */
  datatype CreateBody = CreateBody(title: Option<JsString>, content: Option<JsString>, tags: Option<seq<JsString>>)
  datatype UpdateBody = UpdateBody(title: Option<JsString>, content: Option<JsString>, tags: Option<seq<JsString>>)

  /** What `createNoteSchema` yields when it accepts a body. */
  datatype NewNote = NewNote(title: JsString, content: JsString, tags: seq<JsString>)

  datatype Body =
    | NoteBody(note: Note)
    | NoteListBody(notes: seq<Note>)
    | TagListBody(tags: seq<JsString>)
    | MessageBody(message: JsString)
    | ErrorBody(error: JsString)

  datatype Response = Response(status: int, body: Body)

  type Db = map<NoteId, Note>

  /** A handler's reply together with the database it leaves behind. */
  datatype Step = Step(response: Response, db: Db)

  const ValidationError := Response(400, ErrorBody("Validation error"))
  const CreateFailed := Response(500, ErrorBody("Failed to create note"))
  const UpdateFailed := Response(500, ErrorBody("Failed to update note"))
  const DeleteFailed := Response(500, ErrorBody("Failed to delete note"))
  const Deleted := Response(200, MessageBody("Note deleted successfully"))

  /** `z.string().min(1)`: present, at least one character. */
  predicate RequiredText(field: Option<JsString>) {
    field.Some? && |field.value| >= 1
  }

  /** `z.string().min(1).optional()`: absent, or at least one character. */
  predicate OptionalText(field: Option<JsString>) {
    field.None? || |field.value| >= 1
  }

  /** `createNoteSchema.parse`: title and content required, tags default to the empty list. */
  function ParseCreate(b: CreateBody): (r: Option<NewNote>)
    ensures r.Some? <==> RequiredText(b.title) && RequiredText(b.content)
    ensures r.Some? ==> r.value.title == b.title.value && r.value.content == b.content.value
    ensures r.Some? && b.tags.None? ==> r.value.tags == []
    ensures r.Some? && b.tags.Some? ==> r.value.tags == b.tags.value
  {
    if RequiredText(b.title) && RequiredText(b.content) then
      Some(NewNote(b.title.value, b.content.value, b.tags.GetOr([])))
    else
      None
  }

  /** `updateNoteSchema.parse` succeeds: every field optional, a present title or content non-empty. */
  predicate UpdateAccepted(b: UpdateBody) {
    OptionalText(b.title) && OptionalText(b.content)
  }

  /** Every note is filed under its own id and has a non-empty title and content. */
  ghost predicate WellFormed(db: Db) {
    forall k :: k in db ==> db[k].id == k && db[k].title != [] && db[k].content != []
  }

  /** POST /notes against database `db`; `id` and `now` are what the database assigns. */
  function CreateStep(db: Db, b: CreateBody, id: NoteId, now: int): (r: Step)
    ensures ParseCreate(b).None? ==> r == Step(ValidationError, db)
    ensures ParseCreate(b).Some? && id in db ==> r == Step(CreateFailed, db)
    ensures ParseCreate(b).Some? && id !in db ==>
      && r.db.Keys == db.Keys + {id}
      && (forall k :: k in db ==> r.db[k] == db[k])
      && r.response == Response(201, NoteBody(r.db[id]))
      && r.db[id].id == id
      && r.db[id].title == b.title.value
      && r.db[id].content == b.content.value
      && r.db[id].tags == (if b.tags.Some? then b.tags.value else [])
      && r.db[id].createdAt == r.db[id].updatedAt == now
    ensures WellFormed(db) ==> WellFormed(r.db)
  {
    match ParseCreate(b)
    case None => Step(ValidationError, db)
    case Some(fields) =>
      if id in db then Step(CreateFailed, db)
      else
        var note := Note(id, fields.title, fields.content, fields.tags, now, now);
        Step(Response(201, NoteBody(note)), db[id := note])
  }

  /** The note after `prisma.note.update` with the validated fields of `b`. */
  function Patch(n: Note, b: UpdateBody, now: int): (r: Note)
    ensures r.id == n.id && r.createdAt == n.createdAt && r.updatedAt == now
    ensures b.title.None? ==> r.title == n.title
    ensures b.title.Some? ==> r.title == b.title.value
    ensures b.content.None? ==> r.content == n.content
    ensures b.content.Some? ==> r.content == b.content.value
    ensures b.tags.None? ==> r.tags == n.tags
    ensures b.tags.Some? ==> r.tags == b.tags.value
  {
    n.(title := b.title.GetOr(n.title), content := b.content.GetOr(n.content),
       tags := b.tags.GetOr(n.tags), updatedAt := now)
  }

  /** PUT /notes/:id. A missing id is a failing database call, hence 500. */
  function UpdateStep(db: Db, id: NoteId, b: UpdateBody, now: int): (r: Step)
    ensures !UpdateAccepted(b) ==> r == Step(ValidationError, db)
    ensures UpdateAccepted(b) && id !in db ==> r == Step(UpdateFailed, db)
    ensures UpdateAccepted(b) && id in db ==>
      && r.db.Keys == db.Keys
      && (forall k :: k in db && k != id ==> r.db[k] == db[k])
      && r.db[id] == Patch(db[id], b, now)
      && r.response == Response(200, NoteBody(r.db[id]))
    ensures WellFormed(db) ==> WellFormed(r.db)
  {
    if !UpdateAccepted(b) then Step(ValidationError, db)
    else if id !in db then Step(UpdateFailed, db)
    else
      var note := Patch(db[id], b, now);
      Step(Response(200, NoteBody(note)), db[id := note])
  }

  /** DELETE /notes/:id. A missing id is a failing database call, hence 500. */
  function DeleteStep(db: Db, id: NoteId): (r: Step)
    ensures id !in db ==> r == Step(DeleteFailed, db)
    ensures id in db ==>
      && r.response == Deleted
      && r.db.Keys == db.Keys - {id}
      && (forall k :: k in r.db ==> r.db[k] == db[k])
    ensures WellFormed(db) ==> WellFormed(r.db)
  {
    if id !in db then Step(DeleteFailed, db)
    else Step(Deleted, db - {id})
  }

  predicate NewestFirst(s: seq<Note>) {
    forall i, j :: 0 <= i < j < |s| ==> s[i].createdAt >= s[j].createdAt
  }

  function InsertByCreatedAt(n: Note, s: seq<Note>): (r: seq<Note>)
    requires NewestFirst(s)
    ensures NewestFirst(r)
    ensures multiset(r) == multiset(s) + multiset{n}
  {
    if s == [] || n.createdAt >= s[0].createdAt then [n] + s
    else
      var rest := InsertByCreatedAt(n, s[1..]);
      assert s == [s[0]] + s[1..];
      OlderThanHead(s, n, rest);
      [s[0]] + rest
  }

  /** Every row of a reordering of `s[1..]` plus an older `n` is no newer than `s[0]`. */
  lemma OlderThanHead(s: seq<Note>, n: Note, rest: seq<Note>)
    requires NewestFirst(s) && s != [] && n.createdAt < s[0].createdAt
    requires multiset(rest) == multiset(s[1..]) + multiset{n}
    ensures forall k :: 0 <= k < |rest| ==> s[0].createdAt >= rest[k].createdAt
  {
    forall k | 0 <= k < |rest| ensures s[0].createdAt >= rest[k].createdAt {
      assert rest[k] in multiset(rest);
      if rest[k] != n {
        assert rest[k] in multiset(s[1..]);
        var j :| 0 <= j < |s[1..]| && s[1..][j] == rest[k];
        assert s[j + 1] == rest[k];
      }
    }
  }

  /** `orderBy: { createdAt: 'desc' }`: newest first, a permutation of the rows. */
  function OrderNewestFirst(s: seq<Note>): (r: seq<Note>)
    ensures NewestFirst(r)
    ensures multiset(r) == multiset(s)
  {
    if s == [] then []
    else
      assert s == [s[0]] + s[1..];
      InsertByCreatedAt(s[0], OrderNewestFirst(s[1..]))
  }

  /** `notes.flatMap(note => note.tags)`. */
  function AllTags(notes: seq<Note>): (r: seq<JsString>)
    ensures forall t :: t in r <==> exists i :: 0 <= i < |notes| && t in notes[i].tags
  {
    if notes == [] then []
    else
      var rest := AllTags(notes[1..]);
      assert forall t :: t in rest <==> exists i :: 1 <= i < |notes| && t in notes[i].tags by {
        forall t ensures t in rest <==> exists i :: 1 <= i < |notes| && t in notes[i].tags {
          if t in rest {
            var i :| 0 <= i < |notes[1..]| && t in notes[1..][i].tags;
            assert notes[i + 1] == notes[1..][i];
          }
          if exists i :: 1 <= i < |notes| && t in notes[i].tags {
            var i :| 1 <= i < |notes| && t in notes[i].tags;
            assert notes[1..][i - 1] == notes[i];
          }
        }
      }
      notes[0].tags + rest
  }

  /** GET /tags over the rows `notes`: flatten, keep distinct values, sort. */
  function TagList(notes: seq<Note>): (r: seq<JsString>)
    ensures Sorted(r) && NoDuplicates(r)
    ensures forall t :: t in r <==> exists i :: 0 <= i < |notes| && t in notes[i].tags
  {
    DistinctSorted(AllTags(notes))
  }

  /**
   * The tag list does not depend on the order in which the database hands
   * back the rows (the query at server.ts:109 has no `orderBy`).
   */
  lemma TagListIgnoresRowOrder(a: seq<Note>, b: seq<Note>)
    requires multiset(a) == multiset(b)
    ensures TagList(a) == TagList(b)
  {
    forall t ensures t in AllTags(a) <==> t in AllTags(b) {
      if t in AllTags(a) {
        var i :| 0 <= i < |a| && t in a[i].tags;
        assert a[i] in multiset(b);
        var j :| 0 <= j < |b| && b[j] == a[i];
      }
      if t in AllTags(b) {
        var j :| 0 <= j < |b| && t in b[j].tags;
        assert b[j] in multiset(a);
        var i :| 0 <= i < |a| && a[i] == b[j];
      }
    }
    DistinctSortedDependsOnMembersOnly(AllTags(a), AllTags(b));
  }

  /** The tags carried by some note of the database. */
  ghost predicate TagInStore(db: Db, t: JsString) {
    exists k :: k in db && t in db[k].tags
  }

  /**
   * After a successful delete, a tag that only the deleted note carried is
   * gone from the store's tags, and every other tag is still there.
   */
  lemma DeleteDropsExclusiveTags(db: Db, id: NoteId, t: JsString)
    requires id in db
    ensures TagInStore(DeleteStep(db, id).db, t) <==>
      exists k :: k in db && k != id && t in db[k].tags
  {
    var after := DeleteStep(db, id).db;
    if exists k :: k in db && k != id && t in db[k].tags {
      var k :| k in db && k != id && t in db[k].tags;
      assert k in after;
    }
  }

  /** No two rows share an id. */
  predicate DistinctIds(rows: seq<Note>) {
    forall i, j :: 0 <= i < j < |rows| ==> rows[i].id != rows[j].id
  }

  lemma AppendFreshId(rows: seq<Note>, n: Note, ids: set<NoteId>)
    requires DistinctIds(rows)
    requires forall i :: 0 <= i < |rows| ==> rows[i].id in ids
    requires n.id !in ids
    ensures DistinctIds(rows + [n])
  {
  }

  /** `rows` lists the notes stored under the keys in `seen`, each exactly once. */
  ghost predicate Listed(db: Db, rows: seq<Note>, seen: set<NoteId>) {
    && seen <= db.Keys
    && |rows| == |seen|
    && (forall i :: 0 <= i < |rows| ==> rows[i].id in seen && db[rows[i].id] == rows[i])
    && (forall j :: j in seen ==> db[j] in rows)
    && DistinctIds(rows)
  }

  /** One step of `NoteStore.FindMany`: appending the row of an unseen key keeps `Listed`. */
  lemma FindManyStep(db: Db, rows: seq<Note>, seen: set<NoteId>, k: NoteId)
    requires Listed(db, rows, seen)
    requires k in db && k !in seen && db[k].id == k
    ensures Listed(db, rows + [db[k]], seen + {k})
  {
    AppendFreshId(rows, db[k], seen);
  }

  /**
   * Create `{title: "A", content: "B", tags: ["x", "y"]}`, then update its
   * tags to `["x"]` at a later time, then delete it.
   */
  lemma CreateUpdateDeleteScenario(id: NoteId, t0: int, t1: int)
    requires t0 < t1
    ensures
      var created := CreateStep(map[], CreateBody(Some("A"), Some("B"), Some(["x", "y"])), id, t0);
      var updated := UpdateStep(created.db, id, UpdateBody(None, None, Some(["x"])), t1);
      var deleted := DeleteStep(updated.db, id);
      && created.response.status == 201
      && created.db[id].createdAt == created.db[id].updatedAt
      && created.db[id].tags == ["x", "y"]
      && updated.response.status == 200
      && updated.db[id].title == "A" && updated.db[id].content == "B" && updated.db[id].tags == ["x"]
      && updated.db[id].updatedAt > updated.db[id].createdAt
      && TagInStore(updated.db, "x") && !TagInStore(updated.db, "y")
      && deleted.response == Deleted && deleted.db == map[]
      && !TagInStore(deleted.db, "x")
  {
    var created := CreateStep(map[], CreateBody(Some("A"), Some("B"), Some(["x", "y"])), id, t0);
    var updated := UpdateStep(created.db, id, UpdateBody(None, None, Some(["x"])), t1);
    assert updated.db.Keys == {id};
    assert "y" !in updated.db[id].tags;
  }

  /** The database behind the handlers. */
  class NoteStore {
    var notes: Db

    ghost predicate Valid()
      reads this
    {
      WellFormed(notes)
    }

    constructor ()
      ensures Valid() && notes == map[]
    {
      notes := map[];
    }

    /** POST /notes: validate, then insert under the id the database assigns. */
    method Create(body: CreateBody, id: NoteId, now: int) returns (response: Response)
      requires Valid()
      modifies this
      ensures Valid()
      ensures Step(response, notes) == CreateStep(old(notes), body, id, now)
    {
      var parsed := ParseCreate(body);
      if parsed.None? {
        return ValidationError;
      }
      if id in notes {
        return CreateFailed;
      }
      var note := Note(id, parsed.value.title, parsed.value.content, parsed.value.tags, now, now);
      notes := notes[id := note];
      response := Response(201, NoteBody(note));
    }

    /** PUT /notes/:id: validate, then change the supplied fields of that note. */
    method Update(id: NoteId, body: UpdateBody, now: int) returns (response: Response)
      requires Valid()
      modifies this
      ensures Valid()
      ensures Step(response, notes) == UpdateStep(old(notes), id, body, now)
    {
      if !UpdateAccepted(body) {
        return ValidationError;
      }
      if id !in notes {
        return UpdateFailed;
      }
      var note := Patch(notes[id], body, now);
      notes := notes[id := note];
      response := Response(200, NoteBody(note));
    }

    /** DELETE /notes/:id. */
    method Delete(id: NoteId) returns (response: Response)
      requires Valid()
      modifies this
      ensures Valid()
      ensures Step(response, notes) == DeleteStep(old(notes), id)
    {
      if id !in notes {
        return DeleteFailed;
      }
      notes := notes - {id};
      response := Deleted;
    }

    /** `prisma.note.findMany()` without `orderBy`: every row once, in no particular order. */
    method FindMany() returns (rows: seq<Note>)
      requires Valid()
      ensures |rows| == |notes|
      ensures forall i :: 0 <= i < |rows| ==> rows[i].id in notes && notes[rows[i].id] == rows[i]
      ensures forall k :: k in notes ==> notes[k] in rows
      ensures DistinctIds(rows)
    {
      var rest := notes.Keys;
      ghost var seen: set<NoteId> := {};
      rows := [];
      while rest != {}
        invariant rest !! seen && rest + seen == notes.Keys
        invariant Listed(notes, rows, seen)
        decreases rest
      {
        var k :| k in rest;
        FindManyStep(notes, rows, seen, k);
        rows := rows + [notes[k]];
        rest := rest - {k};
        seen := seen + {k};
      }
      assert seen == notes.Keys;
    }

    /** GET /notes: every stored note exactly once, newest first. */
    method List() returns (response: Response)
      requires Valid()
      ensures response.status == 200 && response.body.NoteListBody?
      ensures NewestFirst(response.body.notes)
      ensures |response.body.notes| == |notes|
      ensures forall n :: n in response.body.notes ==> n.id in notes && notes[n.id] == n
      ensures forall k :: k in notes ==> notes[k] in response.body.notes
    {
      var rows := FindMany();
      var ordered := OrderNewestFirst(rows);
      assert |ordered| == |multiset(ordered)| == |multiset(rows)| == |rows|;
      forall n | n in ordered ensures n.id in notes && notes[n.id] == n {
        assert n in multiset(rows);
      }
      forall k | k in notes ensures notes[k] in ordered {
        assert notes[k] in multiset(rows);
      }
      response := Response(200, NoteListBody(ordered));
    }

    /** GET /tags: the distinct tags of all notes, sorted. */
    method Tags() returns (response: Response)
      requires Valid()
      ensures response.status == 200 && response.body.TagListBody?
      ensures Sorted(response.body.tags) && NoDuplicates(response.body.tags)
      ensures forall t :: t in response.body.tags <==> TagInStore(notes, t)
    {
      var rows := FindMany();
      var tags := TagList(rows);
      forall t ensures t in tags <==> TagInStore(notes, t) {
        if TagInStore(notes, t) {
          var k :| k in notes && t in notes[k].tags;
          var i :| 0 <= i < |rows| && rows[i] == notes[k];
        }
      }
      response := Response(200, TagListBody(tags));
    }
  }
}
