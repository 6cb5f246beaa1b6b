/**
 * The note routes of star-note-backend/routes/noteRoutes.js over an abstract table: the
 * collection is a map from `_id` to document. The caller names itself with a `user_id` field
 * (`None` when it is missing or empty); `now` is the time `Date.now()` returns; `uploaded` is
 * the URL the image host returns for an attached file, `None` when no file is attached.
 */
module NoteRoutes {
  import opened Wrappers
  import opened JsStrings
  import opened Replies
  import opened Seqs

  /** A stored note. `status` is a string: updates write it without the schema's enum check. */
  datatype Note = Note(userId: nat, title: string, content: string, coverImage: Option<string>,
                       status: string, category: string, updatedAt: int)

  /** The fields a PUT body carries; a field that is absent is `None`. */
  datatype NoteBody = NoteBody(title: Option<string>, content: Option<string>, coverImage: Option<string>,
                               status: Option<string>, category: Option<string>)

  const UserRequired := "User ID is required"
  const NotFound := "Note not found"
  const Invalid := "Note validation failed"

  /** The schema's status enum. */
  predicate IsStatus(s: string) {
    s == "active" || s == "favorite" || s == "trash"
  }

  /**
   * What the schema's validators accept when a note is saved: a title, content and a status
   * from the enum. `findByIdAndUpdate` skips them, so a stored note need not pass.
   */
  predicate Storable(note: Note) {
    note.title != "" && note.content != "" && IsStatus(note.status)
  }

  // ================================================================ field rules

  /**
   * The cover image: an uploaded file's URL, else the body's non-empty `cover_image`, else
   * `existing` (the stored image on update, none on create).
   */
  function CoverImage(uploaded: Option<string>, body: string, existing: Option<string>): (r: Option<string>)
    ensures uploaded.Some? ==> r == uploaded
    ensures uploaded.None? && body != "" ==> r == Some(body)
    ensures uploaded.None? && body == "" ==> r == existing
  {
    var fromBody := if body != "" then Some(body) else existing;
    if uploaded.Some? then uploaded else fromBody
  }

  /** A new note's category: `(category || "personal").toLowerCase()`. */
  function NewCategory(category: string): (r: string)
    ensures category == "" ==> r == "personal"
    ensures category != "" ==> r == Lower(category)
  {
    Lower(if category != "" then category else "personal")
  }

  /** Lower-casing twice is lower-casing once, so a stored category is already lower-case. */
  lemma LowerIdempotent(s: string)
    ensures Lower(Lower(s)) == Lower(s)
  {
    var once := Lower(s);
    var twice := Lower(once);
    forall k | 0 <= k < |s|
      ensures twice[k] == once[k]
    {
      assert once[k] == LowerChar(s[k]);
    }
  }

  /** `{ ...note, ...req.body, cover_image, updatedAt }`: the fields the body carries replace the stored ones. */
  function Merged(note: Note, body: NoteBody, cover: Option<string>, now: int): (r: Note)
    ensures r.userId == note.userId && r.coverImage == cover && r.updatedAt == now
    ensures r.title == body.title.GetOr(note.title) && r.content == body.content.GetOr(note.content)
    ensures r.status == body.status.GetOr(note.status)
    ensures body.category.None? ==> r.category == note.category
    ensures body.category.Some? ==> r.category == Lower(body.category.value)
  {
    Note(note.userId, body.title.GetOr(note.title), body.content.GetOr(note.content), cover,
         body.status.GetOr(note.status),
         if body.category.Some? then Lower(body.category.value) else note.category, now)
  }

  /** The favourite toggle: "favorite" becomes "active", every other status "favorite". */
  function FavoriteToggle(s: string): (r: string)
    ensures IsStatus(r) && r != "trash"
    ensures r == "favorite" <==> s != "favorite"
  {
    if s == "favorite" then "active" else "favorite"
  }

  // ================================================================ queries

  /** `GET /`'s filter: the user's notes with the given status, or outside the trash when none is given. */
  function ListIds(notes: map<Id, Note>, userId: nat, status: string): (r: set<Id>)
    ensures forall k :: k in r <==> k in notes && notes[k].userId == userId
                                    && (if status != "" then notes[k].status == status else notes[k].status != "trash")
  {
    set k | k in notes && notes[k].userId == userId
            && (if status != "" then notes[k].status == status else notes[k].status != "trash")
  }

  /** The user's notes outside the trash, which `totalCount` counts. */
  function LiveIds(notes: map<Id, Note>, userId: nat): set<Id> {
    ListIds(notes, userId, "")
  }

  /** The user's notes in the trash, which `DELETE /trash/empty` removes. */
  function TrashIds(notes: map<Id, Note>, userId: nat): set<Id> {
    ListIds(notes, userId, "trash")
  }

  /** Listing without a status and listing the trash split the user's notes between them. */
  lemma ListSplitsNotes(notes: map<Id, Note>, userId: nat)
    ensures LiveIds(notes, userId) !! TrashIds(notes, userId)
    ensures LiveIds(notes, userId) + TrashIds(notes, userId) == set k | k in notes && notes[k].userId == userId
  {
  }

  /** `.limit(n)` on a sorted listing. */
  function Limit(sorted: seq<Id>, n: nat): (r: seq<Id>)
    ensures |r| <= n && |r| <= |sorted|
    ensures |r| == if |sorted| < n then |sorted| else n
    ensures r == sorted[..|r|]
  {
    if |sorted| <= n then sorted else sorted[..n]
  }

  // ================================================================ the collection

  class NoteStore {
    var notes: map<Id, Note>
    var nextId: Id

    /** Every stored id was handed out, so `nextId` is always fresh. */
    ghost predicate Valid()
      reads this
    {
      forall k :: k in notes ==> k < nextId
    }

    constructor()
      ensures Valid() && notes == map[] && nextId == 0
    {
      notes := map[];
      nextId := 0;
    }

    /** `findOne({ _id: id, user_id: userId })` finds a note. */
    predicate Owned(id: Id, userId: nat)
      reads this
    {
      id in notes && notes[id].userId == userId
    }

    /**
     * `POST /`: a note with the lower-cased category ("personal" by default) and the status
     * given or "active". The schema refuses a missing title, content or owner and a status
     * outside its enum (500).
     */
    method Create(userId: Option<nat>, title: string, content: string, coverImage: string,
                  category: string, status: string, uploaded: Option<string>, now: int)
      returns (reply: Reply<Note>)
      requires Valid()
      modifies this
      ensures Valid()
      ensures reply.Ok? <==> userId.Some? && title != "" && content != ""
                             && IsStatus(if status != "" then status else "active")
      ensures reply.Error? ==> reply == Error(500, Invalid) && notes == old(notes) && nextId == old(nextId)
      ensures reply.Ok? ==> Storable(reply.body)
      ensures reply.Ok? ==>
                reply.code == 201 && old(nextId) !in old(notes) && nextId == old(nextId) + 1
                && reply.body == Note(userId.value, title, content, CoverImage(uploaded, coverImage, None),
                                      if status != "" then status else "active", NewCategory(category), now)
                && notes == old(notes)[old(nextId) := reply.body]
    {
      var cover := if coverImage != "" then Some(coverImage) else None;
      if uploaded.Some? {
        cover := uploaded;
      }
      var st := if status != "" then status else "active";
      if userId.None? || title == "" || content == "" || !IsStatus(st) {
        return Error(500, Invalid);
      }
      var note := Note(userId.value, title, content, cover, st, Lower(if category != "" then category else "personal"), now);
      notes := notes[nextId := note];
      nextId := nextId + 1;
      reply := Ok(201, note);
    }

    /** `GET /`: 400 without a user; otherwise the ids the filter selects. */
    method List(userId: Option<nat>, status: string) returns (reply: Reply<set<Id>>)
      ensures userId.None? ==> reply == Error(400, UserRequired)
      ensures userId.Some? ==> reply == Ok(200, ListIds(notes, userId.value, status))
    {
      if userId.None? {
        return Error(400, UserRequired);
      }
      reply := Ok(200, ListIds(notes, userId.value, status));
    }

    /** `GET /:id`: 400 without a user, 404 unless the user owns the note. */
    method Get(userId: Option<nat>, id: Id) returns (reply: Reply<Note>)
      ensures userId.None? ==> reply == Error(400, UserRequired)
      ensures userId.Some? && Owned(id, userId.value) ==> reply == Ok(200, notes[id])
      ensures userId.Some? && !Owned(id, userId.value) ==> reply == Error(404, NotFound)
    {
      if userId.None? {
        return Error(400, UserRequired);
      }
      if !(id in notes && notes[id].userId == userId.value) {
        return Error(404, NotFound);
      }
      reply := Ok(200, notes[id]);
    }

    /**
     * `PUT /:id`: 400 without a user, 404 unless the user owns the note; otherwise the body's
     * fields replace the stored ones and the cover image follows the upload, body, stored order.
     */
    method Update(userId: Option<nat>, id: Id, body: NoteBody, uploaded: Option<string>, now: int)
      returns (reply: Reply<Note>)
      requires Valid()
      modifies this
      ensures Valid() && nextId == old(nextId)
      ensures userId.None? ==> reply == Error(400, UserRequired) && notes == old(notes)
      ensures userId.Some? && !old(Owned(id, userId.value)) ==> reply == Error(404, NotFound) && notes == old(notes)
      ensures userId.Some? && old(Owned(id, userId.value)) ==>
                notes == old(notes)[id := Merged(old(notes)[id], body,
                                                 CoverImage(uploaded, body.coverImage.GetOr(""), old(notes)[id].coverImage), now)]
                && reply == Ok(200, notes[id])
    {
      if userId.None? {
        return Error(400, UserRequired);
      }
      if !(id in notes && notes[id].userId == userId.value) {
        return Error(404, NotFound);
      }
      var bodyCover := body.coverImage.GetOr("");
      var cover := if bodyCover != "" then Some(bodyCover) else notes[id].coverImage;
      if uploaded.Some? {
        cover := uploaded;
      }
      var note := Merged(notes[id], body, cover, now);
      notes := notes[id := note];
      reply := Ok(200, note);
    }

    /**
     * `PUT /:id/trash`: the user's note goes to the trash from any status, unless `save`
     * refuses the changed note (500).
     */
    method MoveToTrash(userId: Option<nat>, id: Id, now: int) returns (reply: Reply<()>)
      requires Valid()
      modifies this
      ensures Valid() && nextId == old(nextId)
      ensures userId.None? ==> reply == Error(400, UserRequired) && notes == old(notes)
      ensures userId.Some? && !old(Owned(id, userId.value)) ==> reply == Error(404, NotFound) && notes == old(notes)
      ensures userId.Some? && old(Owned(id, userId.value)) ==>
                var note := old(notes)[id].(status := "trash", updatedAt := now);
                (Storable(note) ==> reply == Ok(200, ()) && notes == old(notes)[id := note])
                && (!Storable(note) ==> reply == Error(500, Invalid) && notes == old(notes))
    {
      if userId.None? {
        return Error(400, UserRequired);
      }
      if !(id in notes && notes[id].userId == userId.value) {
        return Error(404, NotFound);
      }
      var note := notes[id].(status := "trash", updatedAt := now);
      if !Storable(note) {
        return Error(500, Invalid);
      }
      notes := notes[id := note];
      reply := Ok(200, ());
    }

    /**
     * `PUT /:id/restore`: only the user's note in the trash is found; it becomes "active",
     * unless `save` refuses the changed note (500).
     */
    method Restore(userId: Option<nat>, id: Id, now: int) returns (reply: Reply<()>)
      requires Valid()
      modifies this
      ensures Valid() && nextId == old(nextId)
      ensures userId.None? ==> reply == Error(400, UserRequired) && notes == old(notes)
      ensures userId.Some? && !(old(Owned(id, userId.value)) && old(notes)[id].status == "trash") ==>
                reply == Error(404, "Note not found in trash") && notes == old(notes)
      ensures userId.Some? && old(Owned(id, userId.value)) && old(notes)[id].status == "trash" ==>
                var note := old(notes)[id].(status := "active", updatedAt := now);
                (Storable(note) ==> reply == Ok(200, ()) && notes == old(notes)[id := note])
                && (!Storable(note) ==> reply == Error(500, Invalid) && notes == old(notes))
    {
      if userId.None? {
        return Error(400, UserRequired);
      }
      if !(id in notes && notes[id].userId == userId.value && notes[id].status == "trash") {
        return Error(404, "Note not found in trash");
      }
      var note := notes[id].(status := "active", updatedAt := now);
      if !Storable(note) {
        return Error(500, Invalid);
      }
      notes := notes[id := note];
      reply := Ok(200, ());
    }

    /**
     * `PUT /:id/favorite`: the user's note's status toggles and the reply carries the new
     * status, unless `save` refuses the changed note (500).
     */
    method ToggleFavorite(userId: Option<nat>, id: Id, now: int) returns (reply: Reply<string>)
      requires Valid()
      modifies this
      ensures Valid() && nextId == old(nextId)
      ensures userId.None? ==> reply == Error(400, UserRequired) && notes == old(notes)
      ensures userId.Some? && !old(Owned(id, userId.value)) ==> reply == Error(404, NotFound) && notes == old(notes)
      ensures userId.Some? && old(Owned(id, userId.value)) ==>
                var note := old(notes)[id].(status := FavoriteToggle(old(notes)[id].status), updatedAt := now);
                (Storable(note) ==> reply == Ok(200, note.status) && notes == old(notes)[id := note])
                && (!Storable(note) ==> reply == Error(500, Invalid) && notes == old(notes))
    {
      if userId.None? {
        return Error(400, UserRequired);
      }
      if !(id in notes && notes[id].userId == userId.value) {
        return Error(404, NotFound);
      }
      var status := if notes[id].status == "favorite" then "active" else "favorite";
      var note := notes[id].(status := status, updatedAt := now);
      if !Storable(note) {
        return Error(500, Invalid);
      }
      notes := notes[id := note];
      reply := Ok(200, status);
    }

    /** `DELETE /:id`: the user's note is removed for good. */
    method Delete(userId: Option<nat>, id: Id) returns (reply: Reply<()>)
      requires Valid()
      modifies this
      ensures Valid() && nextId == old(nextId)
      ensures userId.None? ==> reply == Error(400, UserRequired) && notes == old(notes)
      ensures userId.Some? && !old(Owned(id, userId.value)) ==> reply == Error(404, NotFound) && notes == old(notes)
      ensures userId.Some? && old(Owned(id, userId.value)) ==> reply == Ok(200, ()) && notes == old(notes) - {id}
    {
      if userId.None? {
        return Error(400, UserRequired);
      }
      if !(id in notes && notes[id].userId == userId.value) {
        return Error(404, NotFound);
      }
      notes := notes - {id};
      reply := Ok(200, ());
    }

    /** `DELETE /trash/empty`: exactly the user's notes in the trash are deleted; the reply counts them. */
    method EmptyTrash(userId: Option<nat>) returns (reply: Reply<int>)
      requires Valid()
      modifies this
      ensures Valid() && nextId == old(nextId)
      ensures userId.None? ==> reply == Error(400, UserRequired) && notes == old(notes)
      ensures userId.Some? ==>
                notes == old(notes) - TrashIds(old(notes), userId.value)
                && reply == Ok(200, |TrashIds(old(notes), userId.value)|)
    {
      if userId.None? {
        return Error(400, UserRequired);
      }
      var gone := TrashIds(notes, userId.value);
      notes := notes - gone;
      reply := Ok(200, |gone|);
    }

    /**
     * `GET /stats`: the number of the user's notes outside the trash, and the first three of
     * them in `sorted`: the user's notes outside the trash, each once, in the order in which
     * the database returns them.
     */
    method Stats(userId: Option<nat>, sorted: seq<Id>) returns (reply: Reply<(int, seq<Id>)>)
      requires userId.Some? ==> (forall k :: k in sorted <==> k in LiveIds(notes, userId.value))
      requires forall i, j :: 0 <= i < j < |sorted| ==> sorted[i] != sorted[j]
      ensures userId.None? ==> reply == Error(400, UserRequired)
      ensures userId.Some? ==> reply == Ok(200, (|LiveIds(notes, userId.value)|, Limit(sorted, 3)))
      ensures reply.Ok? ==> |reply.body.1| <= 3 && |reply.body.1| <= reply.body.0
      ensures reply.Ok? ==> forall k :: k in reply.body.1 ==> k in LiveIds(notes, userId.value)
    {
      if userId.None? {
        return Error(400, UserRequired);
      }
      DistinctCard(sorted);
      assert Elements(sorted) == LiveIds(notes, userId.value);
      reply := Ok(200, (|LiveIds(notes, userId.value)|, Limit(sorted, 3)));
    }
  }
}
