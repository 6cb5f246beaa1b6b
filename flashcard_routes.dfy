/**
 * The flashcard routes of star-note-backend/routes/flashcardRoutes.js over an abstract table:
 * the collection is a map from `_id` to document, `userId` is the caller's `req.user.id`, and
 * `now` is the time `Date.now()` returns. A request field that is missing or falsy is "".
 */
module FlashcardRoutes {
  import opened Wrappers
  import opened Seqs
  import opened Replies

  /** The schema's status enum. */
  datatype Status = Active | Favorite | Trash {
    function Name(): string {
      match this
      case Active => "active"
      case Favorite => "favorite"
      case Trash => "trash"
    }
  }

  /** The enum check the schema applies to a status string. */
  function ParseStatus(s: string): (r: Option<Status>)
    ensures r.Some? ==> r.value.Name() == s
  {
    if s == "active" then Some(Active)
    else if s == "favorite" then Some(Favorite)
    else if s == "trash" then Some(Trash)
    else None
  }

  /** Every status passes the enum check under its own name, and nothing else does. */
  lemma ParseStatusExact(s: string, st: Status)
    ensures ParseStatus(s) == Some(st) <==> s == st.Name()
  {
  }

  /** The schema's category enum, which is also the list of default categories. */
  const Categories: seq<string> := ["Math", "Science", "History", "Language", "Programming", "Other"]

  datatype Flashcard = Flashcard(userId: nat, question: string, answer: string, category: string,
                                 status: Status, lastReviewed: Option<int>, reviewCount: int, updatedAt: int)

  /** One element of the batch-import array. */
  datatype CardInput = CardInput(question: string, answer: string, category: string)

  const NotFound := "Flashcard not found"
  const Invalid := "Flashcard validation failed"

  /**
   * What the schema's validators accept when a card is saved: a question, an answer and a
   * category from the enum. `findByIdAndUpdate` skips them, so a stored card need not pass.
   */
  predicate Storable(card: Flashcard) {
    card.question != "" && card.answer != "" && card.category in Categories
  }

  // ================================================================ category merge

  predicate NoDuplicates(s: seq<string>) {
    forall i, j :: 0 <= i < j < |s| ==> s[i] != s[j]
  }

  /** `[...new Set(s)]` with the elements of `seen` already taken: first occurrences, in order. */
  function Unique(s: seq<string>, seen: set<string>): seq<string>
    decreases |s|
  {
    if s == [] then []
    else if s[0] in seen then Unique(s[1..], seen)
    else [s[0]] + Unique(s[1..], seen + {s[0]})
  }

  /** The de-duplicated list holds each element of `s` not yet seen exactly once, in the order of `s`. */
  lemma {:induction false} UniqueMeaning(s: seq<string>, seen: set<string>)
    ensures var r := Unique(s, seen);
            NoDuplicates(r) && (forall x :: x in r <==> x in s && x !in seen) && IsSubseq(r, s)
    decreases |s|
  {
    if s != [] {
      var rest := s[1..];
      assert s == [s[0]] + rest;
      if s[0] in seen {
        UniqueMeaning(rest, seen);
        var r := Unique(rest, seen);
        SubseqPrepend([s[0]], r, rest);
      } else {
        UniqueMeaning(rest, seen + {s[0]});
        var r := Unique(rest, seen + {s[0]});
        SubseqCons(s[0], r, rest);
      }
    } else {
      SubseqRefl(s);
    }
  }

  /** A duplicate-free prefix none of whose elements was seen comes out unchanged. */
  lemma {:induction false} UniqueKeepsPrefix(a: seq<string>, b: seq<string>, seen: set<string>)
    requires NoDuplicates(a) && forall x :: x in a ==> x !in seen
    ensures Unique(a + b, seen) == a + Unique(b, seen + set x | x in a)
    decreases |a|
  {
    if a != [] {
      assert (a + b)[1..] == a[1..] + b;
      assert a[0] !in a[1..];
      UniqueKeepsPrefix(a[1..], b, seen + {a[0]});
      assert (seen + {a[0]}) + (set x | x in a[1..]) == seen + (set x | x in a);
    } else {
      assert a + b == b;
      assert (set x | x in a) == {};
      assert seen + {} == seen;
    }
  }

  /** The `/categories/list` reply for the categories the user's cards carry. */
  function CategoryMerge(found: seq<string>): seq<string> {
    Unique(Categories + found, {})
  }

  /**
   * The reply starts with the six defaults in their fixed order, lists no category twice, and
   * holds exactly the defaults and the user's categories.
   */
  lemma CategoryMergeMeaning(found: seq<string>)
    ensures var r := CategoryMerge(found);
            |r| >= 6 && r[..6] == Categories && NoDuplicates(r)
            && forall x :: x in r <==> x in Categories || x in found
  {
    UniqueKeepsPrefix(Categories, found, {});
    UniqueMeaning(Categories + found, {});
    var r := CategoryMerge(found);
    assert r[..6] == Categories;
  }

  /** The categories of the user's cards, which `distinct` lists. */
  function UserCategories(cards: map<Id, Flashcard>, userId: nat): set<string> {
    set k | k in cards && cards[k].userId == userId :: cards[k].category
  }

  // ================================================================ field rules

  /** The PUT body's fields: only the truthy ones replace the stored values. */
  function UpdateFields(card: Flashcard, question: string, answer: string, category: string): (r: Flashcard)
    ensures r.userId == card.userId && r.status == card.status
    ensures r.reviewCount == card.reviewCount && r.lastReviewed == card.lastReviewed
  {
    card.(question := if question != "" then question else card.question,
          answer := if answer != "" then answer else card.answer,
          category := if category != "" then category else card.category)
  }

  /** A field given in the body is stored as given; a field left out keeps its old value. */
  lemma UpdateFieldsSelects(card: Flashcard, question: string, answer: string, category: string)
    ensures var r := UpdateFields(card, question, answer, category);
            (question != "" ==> r.question == question) && (question == "" ==> r.question == card.question)
            && (answer != "" ==> r.answer == answer) && (answer == "" ==> r.answer == card.answer)
            && (category != "" ==> r.category == category) && (category == "" ==> r.category == card.category)
  {
  }

  /** The batch import's category rule: `card.category || "Other"`, then "Other" unless allowed. */
  function ImportCategory(category: string): (r: string)
    ensures r in Categories
    ensures category in Categories ==> r == category
    ensures category !in Categories ==> r == "Other"
  {
    var c := if category != "" then category else "Other";
    if c !in Categories then "Other" else c
  }

  /** `flashcardsToInsert` as the map builds it, before the loop. */
  function Mapped(userId: nat, input: seq<CardInput>, now: int): (r: seq<Flashcard>)
    ensures |r| == |input|
  {
    seq(|input|, i requires 0 <= i < |input| =>
      Flashcard(userId, input[i].question, input[i].answer,
                if input[i].category != "" then input[i].category else "Other", Active, None, 0, now))
  }

  /** What is inserted for a valid batch: each card with its category normalised. */
  function Prepared(userId: nat, input: seq<CardInput>, now: int): (r: seq<Flashcard>)
    ensures |r| == |input|
  {
    seq(|input|, i requires 0 <= i < |input| =>
      Flashcard(userId, input[i].question, input[i].answer, ImportCategory(input[i].category), Active, None, 0, now))
  }

  /** Every element has a question and an answer. */
  predicate AllComplete(input: seq<CardInput>) {
    forall i :: 0 <= i < |input| ==> input[i].question != "" && input[i].answer != ""
  }

  /** Every imported card is active, belongs to the importer and has an allowed category. */
  lemma PreparedCardsValid(userId: nat, input: seq<CardInput>, now: int)
    ensures forall d :: d in Prepared(userId, input, now) ==>
              d.status == Active && d.userId == userId && d.category in Categories && d.reviewCount == 0
  {
    var r := Prepared(userId, input, now);
    forall d | d in r
      ensures d.status == Active && d.userId == userId && d.category in Categories && d.reviewCount == 0
    {
      var i :| 0 <= i < |r| && r[i] == d;
    }
  }

  // ================================================================ status transitions

  /** The favourite toggle: "favorite" becomes "active", every other status "favorite". */
  function FavoriteToggle(s: Status): (r: Status)
    ensures r != Trash
    ensures (r == Favorite) <==> (s != Favorite)
  {
    if s == Favorite then Active else Favorite
  }

  /** Toggling twice from a status other than trash comes back to it; from trash it reaches "active". */
  lemma FavoriteToggleTwice(s: Status)
    ensures FavoriteToggle(FavoriteToggle(s)) == if s == Trash then Active else s
  {
  }

  // ================================================================ queries

  /** `GET /`: the user's cards, with the status filter and the category filter unless "All". */
  function ListIds(cards: map<Id, Flashcard>, userId: nat, status: string, category: string): (r: set<Id>)
    ensures forall k :: k in r <==> k in cards && cards[k].userId == userId
                                    && (status == "" || cards[k].status.Name() == status)
                                    && (category == "" || category == "All" || cards[k].category == category)
  {
    set k | k in cards && cards[k].userId == userId
            && (status == "" || cards[k].status.Name() == status)
            && (category == "" || category == "All" || cards[k].category == category)
  }

  /**
   * `GET /export`: one entry per card of the user's outside the trash, holding its question,
   * answer and category; cards with equal fields still give one entry each.
   */
  function Export(cards: map<Id, Flashcard>, userId: nat): (r: map<Id, (string, string, string)>)
    ensures forall k :: k in r <==> k in cards && cards[k].userId == userId && cards[k].status != Trash
    ensures forall k :: k in r ==> r[k] == (cards[k].question, cards[k].answer, cards[k].category)
  {
    map k | k in cards && cards[k].userId == userId && cards[k].status != Trash ::
      (cards[k].question, cards[k].answer, cards[k].category)
  }

  /** The ids of the user's cards outside the trash, which `totalCount` counts. */
  function LiveIds(cards: map<Id, Flashcard>, userId: nat): set<Id> {
    set k | k in cards && cards[k].userId == userId && cards[k].status != Trash
  }

  /** The ids of the user's favourite cards, which `favoriteCount` counts. */
  function FavoriteIds(cards: map<Id, Flashcard>, userId: nat): set<Id> {
    set k | k in cards && cards[k].userId == userId && cards[k].status == Favorite
  }

  /** A favourite card is outside the trash, so the dashboard's favourites never outnumber its total. */
  lemma FavoritesWithinTotal(cards: map<Id, Flashcard>, userId: nat)
    ensures FavoriteIds(cards, userId) <= LiveIds(cards, userId)
    ensures |FavoriteIds(cards, userId)| <= |LiveIds(cards, userId)|
  {
    var f, l := FavoriteIds(cards, userId), LiveIds(cards, userId);
    assert f <= l;
    SubsetCard(f, l);
  }

  lemma {:induction false} SubsetCard(a: set<Id>, b: set<Id>)
    requires a <= b
    ensures |a| <= |b|
    decreases |b|
  {
    if a != {} {
      var x :| x in a;
      SubsetCard(a - {x}, b - {x});
    }
  }

  /** The cards `DELETE /trash/empty` removes: the user's cards in the trash. */
  function TrashIds(cards: map<Id, Flashcard>, userId: nat): set<Id> {
    set k | k in cards && cards[k].userId == userId && cards[k].status == Trash
  }

  // ================================================================ the collection

  class FlashcardStore {
    var cards: map<Id, Flashcard>
    var nextId: Id

    /** Every stored id was handed out, so `nextId` is always fresh. */
    ghost predicate Valid()
      reads this
    {
      forall k :: k in cards ==> k < nextId
    }

    constructor()
      ensures Valid() && cards == map[] && nextId == 0
    {
      cards := map[];
      nextId := 0;
    }

    /** `findOne({ _id: id, user_id: userId })` finds a card. */
    predicate Owned(id: Id, userId: nat)
      reads this
    {
      id in cards && cards[id].userId == userId
    }

    /**
     * `POST /`: question, answer and category are required (400). The status defaults to
     * "active"; a status or category outside the schema's enums fails validation (500).
     */
    method Create(userId: nat, question: string, answer: string, category: string, status: string, now: int)
      returns (reply: Reply<Flashcard>)
      requires Valid()
      modifies this
      ensures Valid()
      ensures question == "" || answer == "" || category == "" ==>
                reply == Error(400, "Question, answer, and category are required")
      ensures reply.Ok? <==> question != "" && answer != "" && category != "" && category in Categories
                             && ParseStatus(if status != "" then status else "active").Some?
      ensures reply.Error? ==> reply.code in {400, 500} && cards == old(cards) && nextId == old(nextId)
      ensures reply.Ok? ==> Storable(reply.body)
      ensures question != "" && answer != "" && category != "" && reply.Error? ==> reply == Error(500, Invalid)
      ensures reply.Ok? ==>
                reply.code == 201 && old(nextId) !in old(cards) && nextId == old(nextId) + 1
                && reply.body == Flashcard(userId, question, answer, category,
                                           ParseStatus(if status != "" then status else "active").value, None, 0, now)
                && cards == old(cards)[old(nextId) := reply.body]
    {
      if question == "" || answer == "" || category == "" {
        return Error(400, "Question, answer, and category are required");
      }
      var st := ParseStatus(if status != "" then status else "active");
      if st.None? || category !in Categories {
        return Error(500, Invalid);
      }
      var card := Flashcard(userId, question, answer, category, st.value, None, 0, now);
      cards := cards[nextId := card];
      nextId := nextId + 1;
      reply := Ok(201, card);
    }

    /** `GET /:id`: the caller's card, else 404. */
    method Get(userId: nat, id: Id) returns (reply: Reply<Flashcard>)
      ensures Owned(id, userId) ==> reply == Ok(200, cards[id])
      ensures !Owned(id, userId) ==> reply == Error(404, NotFound)
    {
      if id in cards && cards[id].userId == userId {
        reply := Ok(200, cards[id]);
      } else {
        reply := Error(404, NotFound);
      }
    }

    /**
     * `GET /categories/list`: the defaults followed by the user's own categories, each once.
     * `found` is what `distinct` returns for the user's cards, in the database's order.
     */
    method CategoryList(userId: nat, found: seq<string>) returns (reply: Reply<seq<string>>)
      requires (set x | x in found) == UserCategories(cards, userId)
      ensures reply.Ok? && reply.code == 200
      ensures |reply.body| >= 6 && reply.body[..6] == Categories && NoDuplicates(reply.body)
      ensures forall x :: x in reply.body <==> x in Categories || x in UserCategories(cards, userId)
    {
      CategoryMergeMeaning(found);
      reply := Ok(200, CategoryMerge(found));
    }

    /**
     * `PUT /:id`: 400 when no field is given, 404 unless the caller owns the card; otherwise
     * the given fields replace the stored ones.
     */
    method Update(userId: nat, id: Id, question: string, answer: string, category: string, now: int)
      returns (reply: Reply<Flashcard>)
      requires Valid()
      modifies this
      ensures Valid() && nextId == old(nextId)
      ensures question == "" && answer == "" && category == "" ==>
                reply == Error(400, "Please provide fields to update") && cards == old(cards)
      ensures (question != "" || answer != "" || category != "") && !old(Owned(id, userId)) ==>
                reply == Error(404, NotFound) && cards == old(cards)
      ensures (question != "" || answer != "" || category != "") && old(Owned(id, userId)) ==>
                cards == old(cards)[id := UpdateFields(old(cards)[id], question, answer, category).(updatedAt := now)]
                && reply == Ok(200, cards[id])
    {
      if question == "" && answer == "" && category == "" {
        return Error(400, "Please provide fields to update");
      }
      if !(id in cards && cards[id].userId == userId) {
        return Error(404, NotFound);
      }
      var card := UpdateFields(cards[id], question, answer, category).(updatedAt := now);
      cards := cards[id := card];
      reply := Ok(200, card);
    }

    /** `DELETE /:id`: the caller's card is removed for good, else 404. */
    method Delete(userId: nat, id: Id) returns (reply: Reply<()>)
      requires Valid()
      modifies this
      ensures Valid() && nextId == old(nextId)
      ensures old(Owned(id, userId)) ==> reply == Ok(200, ()) && cards == old(cards) - {id}
      ensures !old(Owned(id, userId)) ==> reply == Error(404, NotFound) && cards == old(cards)
    {
      if !(id in cards && cards[id].userId == userId) {
        return Error(404, NotFound);
      }
      cards := cards - {id};
      reply := Ok(200, ());
    }

    /**
     * `PUT /:id/trash`: the caller's card goes to the trash from any status, else 404; `save`
     * refuses a card the schema does not accept (500).
     */
    method MoveToTrash(userId: nat, id: Id, now: int) returns (reply: Reply<()>)
      requires Valid()
      modifies this
      ensures Valid() && nextId == old(nextId)
      ensures old(Owned(id, userId)) && Storable(old(cards)[id]) ==>
                reply == Ok(200, ()) && cards == old(cards)[id := old(cards)[id].(status := Trash, updatedAt := now)]
      ensures old(Owned(id, userId)) && !Storable(old(cards)[id]) ==> reply == Error(500, Invalid) && cards == old(cards)
      ensures !old(Owned(id, userId)) ==> reply == Error(404, NotFound) && cards == old(cards)
    {
      if !(id in cards && cards[id].userId == userId) {
        return Error(404, NotFound);
      }
      var card := cards[id].(status := Trash, updatedAt := now);
      if !Storable(card) {
        return Error(500, Invalid);
      }
      cards := cards[id := card];
      reply := Ok(200, ());
    }

    /**
     * `PUT /:id/restore`: only the caller's card in the trash is found; it becomes "active",
     * unless `save` refuses it (500).
     */
    method Restore(userId: nat, id: Id, now: int) returns (reply: Reply<()>)
      requires Valid()
      modifies this
      ensures Valid() && nextId == old(nextId)
      ensures old(Owned(id, userId)) && old(cards)[id].status == Trash && Storable(old(cards)[id]) ==>
                reply == Ok(200, ()) && cards == old(cards)[id := old(cards)[id].(status := Active, updatedAt := now)]
      ensures old(Owned(id, userId)) && old(cards)[id].status == Trash && !Storable(old(cards)[id]) ==>
                reply == Error(500, Invalid) && cards == old(cards)
      ensures !(old(Owned(id, userId)) && old(cards)[id].status == Trash) ==>
                reply == Error(404, "Flashcard not found in trash") && cards == old(cards)
    {
      if !(id in cards && cards[id].userId == userId && cards[id].status == Trash) {
        return Error(404, "Flashcard not found in trash");
      }
      var card := cards[id].(status := Active, updatedAt := now);
      if !Storable(card) {
        return Error(500, Invalid);
      }
      cards := cards[id := card];
      reply := Ok(200, ());
    }

    /**
     * `PUT /:id/favorite`: the caller's card's status toggles and the reply carries the new
     * status, unless `save` refuses the card (500).
     */
    method ToggleFavorite(userId: nat, id: Id, now: int) returns (reply: Reply<Status>)
      requires Valid()
      modifies this
      ensures Valid() && nextId == old(nextId)
      ensures old(Owned(id, userId)) && !Storable(old(cards)[id]) ==> reply == Error(500, Invalid) && cards == old(cards)
      ensures old(Owned(id, userId)) && Storable(old(cards)[id]) ==>
                reply == Ok(200, FavoriteToggle(old(cards)[id].status))
                && cards == old(cards)[id := old(cards)[id].(status := FavoriteToggle(old(cards)[id].status), updatedAt := now)]
      ensures !old(Owned(id, userId)) ==> reply == Error(404, NotFound) && cards == old(cards)
    {
      if !(id in cards && cards[id].userId == userId) {
        return Error(404, NotFound);
      }
      var status := if cards[id].status == Favorite then Active else Favorite;
      var card := cards[id].(status := status, updatedAt := now);
      if !Storable(card) {
        return Error(500, Invalid);
      }
      cards := cards[id := card];
      reply := Ok(200, status);
    }

    /**
     * `PUT /:id/review`: one more review of the caller's card, stamped with the time, unless
     * `save` refuses the card (500).
     */
    method TrackReview(userId: nat, id: Id, now: int) returns (reply: Reply<int>)
      requires Valid()
      modifies this
      ensures Valid() && nextId == old(nextId)
      ensures old(Owned(id, userId)) && !Storable(old(cards)[id]) ==> reply == Error(500, Invalid) && cards == old(cards)
      ensures old(Owned(id, userId)) && Storable(old(cards)[id]) ==>
                reply == Ok(200, old(cards)[id].reviewCount + 1)
                && cards == old(cards)[id := old(cards)[id].(reviewCount := old(cards)[id].reviewCount + 1,
                                                             lastReviewed := Some(now), updatedAt := now)]
      ensures !old(Owned(id, userId)) ==> reply == Error(404, NotFound) && cards == old(cards)
    {
      if !(id in cards && cards[id].userId == userId) {
        return Error(404, NotFound);
      }
      var card := cards[id];
      card := card.(reviewCount := card.reviewCount + 1, lastReviewed := Some(now), updatedAt := now);
      if !Storable(card) {
        return Error(500, Invalid);
      }
      cards := cards[id := card];
      reply := Ok(200, card.reviewCount);
    }

    /** `DELETE /trash/empty`: the user's cards in the trash are deleted; the reply counts them. */
    method EmptyTrash(userId: nat) returns (reply: Reply<int>)
      requires Valid()
      modifies this
      ensures Valid() && nextId == old(nextId)
      ensures cards == old(cards) - TrashIds(old(cards), userId)
      ensures reply == Ok(200, |TrashIds(old(cards), userId)|)
    {
      var gone := TrashIds(cards, userId);
      cards := cards - gone;
      reply := Ok(200, |gone|);
    }

    /**
     * `POST /batch`: a missing or empty array is refused; so is a batch in which any card lacks
     * a question or an answer, before anything is inserted. Otherwise every card is inserted,
     * active and with its category normalised.
     */
    method BatchImport(userId: nat, flashcards: Option<seq<CardInput>>, now: int) returns (reply: Reply<int>)
      requires Valid()
      modifies this
      ensures Valid()
      ensures flashcards.None? || flashcards.value == [] ==>
                reply == Error(400, "Invalid flashcards data") && cards == old(cards) && nextId == old(nextId)
      ensures flashcards.Some? && flashcards.value != [] && !AllComplete(flashcards.value) ==>
                reply == Error(400, "All flashcards must have question and answer fields")
                && cards == old(cards) && nextId == old(nextId)
      ensures flashcards.Some? && flashcards.value != [] && AllComplete(flashcards.value) ==>
                reply == Ok(201, |flashcards.value|)
                && cards == old(cards) + Inserted(old(nextId), Prepared(userId, flashcards.value, now))
                && nextId == old(nextId) + |flashcards.value|
    {
      if flashcards.None? || |flashcards.value| == 0 {
        return Error(400, "Invalid flashcards data");
      }
      var input := flashcards.value;
      var toInsert := Mapped(userId, input, now);
      var i := 0;
      while i < |toInsert|
        invariant 0 <= i <= |toInsert| == |input|
        invariant forall j :: 0 <= j < i ==> toInsert[j] == Prepared(userId, input, now)[j]
        invariant forall j :: i <= j < |input| ==> toInsert[j] == Mapped(userId, input, now)[j]
        invariant forall j :: 0 <= j < i ==> input[j].question != "" && input[j].answer != ""
      {
        if toInsert[i].question == "" || toInsert[i].answer == "" {
          return Error(400, "All flashcards must have question and answer fields");
        }
        if toInsert[i].category !in Categories {
          toInsert := toInsert[i := toInsert[i].(category := "Other")];
        }
        i := i + 1;
      }
      assert toInsert == Prepared(userId, input, now);
      InsertMany(toInsert);
      reply := Ok(201, |toInsert|);
    }

    /** `insertMany`: the documents are stored under consecutive fresh ids. */
    method InsertMany(docs: seq<Flashcard>)
      requires Valid()
      modifies this
      ensures Valid()
      ensures cards == old(cards) + Inserted(old(nextId), docs) && nextId == old(nextId) + |docs|
      ensures forall k :: k in Inserted(old(nextId), docs) ==> k !in old(cards)
    {
      var start := nextId;
      var i := 0;
      while i < |docs|
        invariant 0 <= i <= |docs| && nextId == start + i
        invariant Valid()
        invariant cards == old(cards) + Inserted(start, docs[..i])
      {
        InsertedSnoc(start, docs[..i], docs[i]);
        assert docs[..i + 1] == docs[..i] + [docs[i]];
        cards := cards[nextId := docs[i]];
        nextId := nextId + 1;
        i := i + 1;
      }
      assert docs[..i] == docs;
    }
  }
}
