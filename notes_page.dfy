/**
 * The notes page of star-note-frontend/src/pages/Notes/NotesPage.jsx: the notes held in page
 * state, the list shown for the search term and tab, and the editor's draft.
 */
module NotesPage {
  import opened Wrappers
  import opened Seqs
  import opened JsStrings

  /**
   * A note as the page holds it. `id` is a string (`Date.now().toString()` for a new note) and
   * `updatedAt` stands for the time stamp the page writes.
   */
  datatype Note = Note(id: string, title: string, content: string, category: string, isFavorite: bool, updatedAt: int)

  /** The inputs of the editor, by their `name` attribute. */
  datatype NoteField = Title | Content | Category

  const DefaultCategories: seq<string> := ["Personal", "Work", "Ideas", "Programming", "Study"]

  // ================================================================ the filter effect

  /** The search test: the term occurs, ignoring ASCII case, in the title or in the content. */
  predicate SearchHit(note: Note, term: string) {
    Includes(Lower(note.title), Lower(term)) || Includes(Lower(note.content), Lower(term))
  }

  /** What the effect leaves in `filteredNotes`: the search filter when a term is typed, then the tab. */
  function VisibleNotes(notes: seq<Note>, term: string, tab: string): seq<Note> {
    var afterSearch := if term != "" then Filter(notes, (n: Note) => SearchHit(n, term)) else notes;
    if tab == "favorites" then Filter(afterSearch, (n: Note) => n.isFavorite)
    else if tab == "trash" then []
    else afterSearch
  }

  /**
   * The "trash" tab is always empty. On any other tab a note is shown exactly when it is held,
   * matches the term and, on "favorites", is a favourite; the shown notes keep their order.
   */
  lemma VisibleNotesMeaning(notes: seq<Note>, term: string, tab: string)
    ensures var r := VisibleNotes(notes, term, tab);
            IsSubseq(r, notes)
            && (tab == "trash" ==> r == [])
            && (tab != "trash" ==>
                  forall n :: n in r <==> n in notes && (term == "" || SearchHit(n, term))
                                          && (tab == "favorites" ==> n.isFavorite))
  {
    var afterSearch := if term != "" then Filter(notes, (n: Note) => SearchHit(n, term)) else notes;
    var r := VisibleNotes(notes, term, tab);
    if term == "" {
      SubseqRefl(notes);
    }
    if tab == "trash" {
      SubseqConcat([], [], [], notes);
    } else {
      if tab != "favorites" {
        SubseqRefl(afterSearch);
      }
      SubseqTrans(r, afterSearch, notes);
      forall n
        ensures n in r <==> n in notes && (term == "" || SearchHit(n, term)) && (tab == "favorites" ==> n.isFavorite)
      {
        if n in r {
          var i :| 0 <= i < |r| && r[i] == n;
        }
        if n in afterSearch {
          var i :| 0 <= i < |afterSearch| && afterSearch[i] == n;
        }
        if n in notes {
          var i :| 0 <= i < |notes| && notes[i] == n;
        }
      }
    }
  }

  /** `notes.filter(note => note.id !== id)` */
  function WithoutNote(notes: seq<Note>, id: string): seq<Note> {
    Filter(notes, (n: Note) => n.id != id)
  }

  /** After a delete the filter effect shows the same list as before, less the deleted note. */
  lemma DeleteThenFilter(notes: seq<Note>, term: string, tab: string, id: string)
    ensures VisibleNotes(WithoutNote(notes, id), term, tab) == WithoutNote(VisibleNotes(notes, term, tab), id)
  {
    var other := (n: Note) => n.id != id;
    var search := (n: Note) => SearchHit(n, term);
    var favourite := (n: Note) => n.isFavorite;
    if term != "" {
      FilterCommute(notes, search, other);
      if tab == "favorites" {
        FilterCommute(Filter(notes, search), favourite, other);
      }
    } else if tab == "favorites" {
      FilterCommute(notes, favourite, other);
    }
  }

  /** `notes.map(...)` of `handleToggleFavorite(id)`. */
  function ToggledNotes(notes: seq<Note>, id: string): (r: seq<Note>)
    ensures |r| == |notes|
  {
    seq(|notes|, i requires 0 <= i < |notes| =>
      if notes[i].id == id then notes[i].(isFavorite := !notes[i].isFavorite) else notes[i])
  }

  /** Exactly the notes with the id change, and only their favourite flag, which flips. */
  lemma ToggleFavoriteOnlyMatching(notes: seq<Note>, id: string)
    ensures var r := ToggledNotes(notes, id);
            forall i :: 0 <= i < |notes| ==>
              r[i].(isFavorite := notes[i].isFavorite) == notes[i]
              && (r[i].isFavorite != notes[i].isFavorite <==> notes[i].id == id)
  {
  }

  /** Toggling twice restores the notes. */
  lemma ToggleFavoriteTwice(notes: seq<Note>, id: string)
    ensures ToggledNotes(ToggledNotes(notes, id), id) == notes
  {
    var r := ToggledNotes(ToggledNotes(notes, id), id);
    assert forall i :: 0 <= i < |notes| ==> r[i] == notes[i];
  }

  /**
   * `updatedNotes` of `handleSaveNote` at time `now`: a draft with an id replaces the notes with
   * that id (stamped with `now`); a draft without one is appended with a fresh id.
   */
  function SavedNotes(notes: seq<Note>, draft: Note, now: int): (r: seq<Note>)
    ensures draft.id != "" ==> |r| == |notes|
    ensures draft.id == "" ==> |r| == |notes| + 1
  {
    if draft.id != "" then
      seq(|notes|, i requires 0 <= i < |notes| =>
        if notes[i].id == draft.id then draft.(updatedAt := now) else notes[i])
    else
      notes + [draft.(id := IntToString(now), updatedAt := now)]
  }

  /** Saving a draft whose id no held note carries leaves the notes as they are. */
  lemma SaveUnknownIdChangesNothing(notes: seq<Note>, draft: Note, now: int)
    requires draft.id != ""
    requires forall i :: 0 <= i < |notes| ==> notes[i].id != draft.id
    ensures SavedNotes(notes, draft, now) == notes
  {
  }

  /** Saving a draft with an id replaces exactly the notes with that id and keeps the others in place. */
  lemma SaveReplacesOnlyMatching(notes: seq<Note>, draft: Note, now: int)
    requires draft.id != ""
    ensures var r := SavedNotes(notes, draft, now);
            forall i :: 0 <= i < |notes| ==>
              r[i] == if notes[i].id == draft.id then draft.(updatedAt := now) else notes[i]
  {
  }

  /** The draft `handleCreateNote` opens at time `now`. */
  function NewDraft(now: int): (d: Note)
    ensures d.id != ""
  {
    Note(IntToString(now), "", "", "Personal", false, now)
  }

  /** An edit through the editor's inputs. */
  function EditedNote(note: Note, field: NoteField, value: string): (r: Note)
    ensures r.id == note.id
  {
    match field
    case Title => note.(title := value)
    case Content => note.(content := value)
    case Category => note.(category := value)
  }

  /**
   * The append branch of the save is out of reach from the create flow: the draft opened by
   * `handleCreateNote` carries an id whatever inputs are edited, so saving it replaces, and
   * when no held note has that id the save changes no note.
   */
  lemma CreatedNoteNeverAppended(notes: seq<Note>, created: int, edits: seq<(NoteField, string)>, now: int)
    ensures var d := ApplyEdits(NewDraft(created), edits);
            d.id != "" && |SavedNotes(notes, d, now)| == |notes|
            && ((forall i :: 0 <= i < |notes| ==> notes[i].id != d.id) ==> SavedNotes(notes, d, now) == notes)
  {
    EditsKeepId(NewDraft(created), edits);
  }

  /** Edits applied one after the other. */
  function ApplyEdits(note: Note, edits: seq<(NoteField, string)>): Note
    decreases |edits|
  {
    if edits == [] then note else ApplyEdits(EditedNote(note, edits[0].0, edits[0].1), edits[1..])
  }

  lemma {:induction false} EditsKeepId(note: Note, edits: seq<(NoteField, string)>)
    ensures ApplyEdits(note, edits).id == note.id
    decreases |edits|
  {
    if edits != [] {
      EditsKeepId(EditedNote(note, edits[0].0, edits[0].1), edits[1..]);
    }
  }

  // ================================================================ the page state

  class NotesView {
    var notes: seq<Note>
    var filteredNotes: seq<Note>
    var activeFilter: string
    var searchTerm: string
    var isEditing: bool
    var currentNote: Option<Note>
    var categories: seq<string>

    /** The initial state: no notes, the "all" tab, no search, the editor closed. */
    constructor()
      ensures notes == [] && filteredNotes == [] && activeFilter == "all" && searchTerm == ""
      ensures !isEditing && currentNote == None && categories == DefaultCategories
    {
      notes := [];
      filteredNotes := [];
      activeFilter := "all";
      searchTerm := "";
      isEditing := false;
      currentNote := None;
      categories := DefaultCategories;
    }

    /**
     * The mount effect: both lists take the loaded notes, and the filter effect that the new
     * note list triggers then shows those passing the search and the tab.
     */
    method NotesLoaded(data: seq<Note>)
      modifies this
      ensures notes == data && filteredNotes == VisibleNotes(data, searchTerm, activeFilter)
      ensures activeFilter == old(activeFilter) && searchTerm == old(searchTerm)
      ensures isEditing == old(isEditing) && currentNote == old(currentNote) && categories == old(categories)
    {
      notes := data;
      filteredNotes := data;
      FilterEffect();
    }

    /** The effect over `[notes, searchTerm, activeFilter]`: recompute the shown list. */
    method FilterEffect()
      modifies this
      ensures filteredNotes == VisibleNotes(notes, searchTerm, activeFilter)
      ensures notes == old(notes) && activeFilter == old(activeFilter) && searchTerm == old(searchTerm)
      ensures isEditing == old(isEditing) && currentNote == old(currentNote) && categories == old(categories)
    {
      var term, tab := searchTerm, activeFilter;
      var result := notes;
      if term != "" {
        result := Filter(result, (n: Note) => SearchHit(n, term));
      }
      if tab == "favorites" {
        result := Filter(result, (n: Note) => n.isFavorite);
      } else if tab == "trash" {
        result := [];
      }
      filteredNotes := result;
    }

    /** `handleSearch`, followed by the filter effect it triggers. */
    method HandleSearch(term: string)
      modifies this
      ensures searchTerm == term && filteredNotes == VisibleNotes(notes, term, activeFilter)
      ensures notes == old(notes) && activeFilter == old(activeFilter)
      ensures isEditing == old(isEditing) && currentNote == old(currentNote) && categories == old(categories)
    {
      searchTerm := term;
      FilterEffect();
    }

    /** `handleFilterChange`, followed by the filter effect it triggers. */
    method HandleFilterChange(tab: string)
      modifies this
      ensures activeFilter == tab && filteredNotes == VisibleNotes(notes, searchTerm, tab)
      ensures notes == old(notes) && searchTerm == old(searchTerm)
      ensures isEditing == old(isEditing) && currentNote == old(currentNote) && categories == old(categories)
    {
      activeFilter := tab;
      FilterEffect();
    }

    /** `handleCreateNote` at time `now`: an empty "Personal" draft with a fresh id. */
    method HandleCreateNote(now: int)
      modifies this
      ensures currentNote == Some(NewDraft(now)) && isEditing
      ensures notes == old(notes) && filteredNotes == old(filteredNotes) && activeFilter == old(activeFilter)
      ensures searchTerm == old(searchTerm) && categories == old(categories)
    {
      currentNote := Some(Note(IntToString(now), "", "", "Personal", false, now));
      isEditing := true;
    }

    /** `handleEditNote`: a copy of the note in the editor. */
    method HandleEditNote(note: Note)
      modifies this
      ensures currentNote == Some(note) && isEditing
      ensures notes == old(notes) && filteredNotes == old(filteredNotes) && activeFilter == old(activeFilter)
      ensures searchTerm == old(searchTerm) && categories == old(categories)
    {
      currentNote := Some(note);
      isEditing := true;
    }

    /** `handleNoteChange`: one input of the open draft takes the typed value. */
    method HandleNoteChange(field: NoteField, value: string)
      requires currentNote.Some?
      modifies this
      ensures currentNote == Some(EditedNote(old(currentNote).value, field, value))
      ensures notes == old(notes) && filteredNotes == old(filteredNotes) && activeFilter == old(activeFilter)
      ensures searchTerm == old(searchTerm) && isEditing == old(isEditing) && categories == old(categories)
    {
      currentNote := Some(EditedNote(currentNote.value, field, value));
    }

    /** `handleCancelEdit` */
    method HandleCancelEdit()
      modifies this
      ensures !isEditing && currentNote == None
      ensures notes == old(notes) && filteredNotes == old(filteredNotes) && activeFilter == old(activeFilter)
      ensures searchTerm == old(searchTerm) && categories == old(categories)
    {
      isEditing := false;
      currentNote := None;
    }

    /**
     * `handleDeleteNote`: the notes with the id leave the list, the rest keeping their order,
     * and the filter effect re-runs.
     */
    method HandleDeleteNote(id: string)
      modifies this
      ensures notes == WithoutNote(old(notes), id) && filteredNotes == VisibleNotes(notes, searchTerm, activeFilter)
      ensures old(filteredNotes) == VisibleNotes(old(notes), searchTerm, activeFilter) ==>
                filteredNotes == WithoutNote(old(filteredNotes), id)
      ensures activeFilter == old(activeFilter) && searchTerm == old(searchTerm)
      ensures isEditing == old(isEditing) && currentNote == old(currentNote) && categories == old(categories)
    {
      DeleteThenFilter(notes, searchTerm, activeFilter, id);
      notes := WithoutNote(notes, id);
      FilterEffect();
    }

    /** `handleToggleFavorite`: the notes with the id flip their favourite flag, and the filter effect re-runs. */
    method HandleToggleFavorite(id: string)
      modifies this
      ensures notes == ToggledNotes(old(notes), id) && filteredNotes == VisibleNotes(notes, searchTerm, activeFilter)
      ensures activeFilter == old(activeFilter) && searchTerm == old(searchTerm)
      ensures isEditing == old(isEditing) && currentNote == old(currentNote) && categories == old(categories)
    {
      notes := ToggledNotes(notes, id);
      FilterEffect();
    }

    /**
     * `handleSaveNote` at time `now`: a blank title is refused with nothing changed; otherwise
     * the notes become `SavedNotes`, the editor closes and the filter effect re-runs.
     */
    method HandleSaveNote(now: int) returns (refused: bool)
      requires currentNote.Some?
      modifies this
      ensures refused <==> IsBlank(old(currentNote).value.title)
      ensures refused ==> notes == old(notes) && currentNote == old(currentNote) && isEditing == old(isEditing)
      ensures !refused ==> notes == SavedNotes(old(notes), old(currentNote).value, now) && !isEditing && currentNote == None
      ensures refused ==> filteredNotes == old(filteredNotes)
      ensures !refused ==> filteredNotes == VisibleNotes(notes, searchTerm, activeFilter)
      ensures activeFilter == old(activeFilter) && searchTerm == old(searchTerm) && categories == old(categories)
    {
      var draft := currentNote.value;
      if Trim(draft.title) == "" {
        return true;
      }
      refused := false;
      notes := SavedNotes(notes, draft, now);
      isEditing := false;
      currentNote := None;
      FilterEffect();
    }
  }
}
