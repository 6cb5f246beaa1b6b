/**
 * The flashcards page of star-note-frontend/src/pages/Flashcards/FlashcardsPage.jsx: the cards
 * loaded for the user, the filtered list shown, the editor's draft, and study mode stepping
 * cyclically through the filtered list.
 */
module FlashcardsPage {
  import opened Wrappers
  import opened Seqs
  import opened JsStrings

  /** A card as the server returns it; `id` is its `_id`. */
  datatype Card = Card(id: int, question: string, answer: string, category: string)

  /** The card being edited: a new card has no `_id` yet. */
  datatype Draft = Draft(id: Option<int>, question: string, answer: string, category: string)

  /** The editor inputs, by their `name` attribute. */
  datatype CardField = Question | Answer | Category

  /** The category list shown before the server's list arrives. */
  const DefaultCategories: seq<string> := ["All", "Math", "Science", "History", "Language", "Programming"]

  // ================================================================ the filter effect

  /** The search test: the term occurs, ignoring ASCII case, in the question or in the answer. */
  predicate SearchHit(card: Card, term: string) {
    Includes(Lower(card.question), Lower(term)) || Includes(Lower(card.answer), Lower(term))
  }

  /** What the effect leaves in `filteredCards`: the search filter when a term is typed, then the category filter unless "All". */
  function VisibleCards(cards: seq<Card>, term: string, category: string): seq<Card> {
    var afterSearch := if term != "" then Filter(cards, (c: Card) => SearchHit(c, term)) else cards;
    if category != "All" then Filter(afterSearch, (c: Card) => c.category == category) else afterSearch
  }

  /** A card is shown exactly when it is loaded, matches the term and is in the category. */
  predicate Shown(card: Card, term: string, category: string) {
    (term == "" || SearchHit(card, term)) && (category == "All" || card.category == category)
  }

  /** The shown list holds exactly the loaded cards that pass both tests, in their loaded order. */
  lemma VisibleCardsMeaning(cards: seq<Card>, term: string, category: string)
    ensures var r := VisibleCards(cards, term, category);
            (forall c :: c in r <==> c in cards && Shown(c, term, category)) && IsSubseq(r, cards)
  {
    var afterSearch := if term != "" then Filter(cards, (c: Card) => SearchHit(c, term)) else cards;
    var r := VisibleCards(cards, term, category);
    if term == "" {
      SubseqRefl(cards);
    }
    if category == "All" {
      SubseqRefl(afterSearch);
    }
    SubseqTrans(r, afterSearch, cards);
    forall c
      ensures c in r <==> c in cards && Shown(c, term, category)
    {
      if c in r {
        var i :| 0 <= i < |r| && r[i] == c;
      }
      if c in afterSearch {
        var i :| 0 <= i < |afterSearch| && afterSearch[i] == c;
      }
      if c in cards {
        var i :| 0 <= i < |cards| && cards[i] == c;
      }
    }
  }

  /** An empty search term and the "All" category show every loaded card. */
  lemma NoFilterShowsAll(cards: seq<Card>)
    ensures VisibleCards(cards, "", "All") == cards
  {
  }

  /** `cards.filter(card => card._id !== id)` */
  function WithoutCard(cards: seq<Card>, id: int): seq<Card> {
    Filter(cards, (c: Card) => c.id != id)
  }

  /**
   * Deleting from the shown list as the delete handler does gives what the filter effect
   * computes from the reduced card list, so the effect's re-run after a delete changes nothing.
   */
  lemma DeleteKeepsFilterInStep(cards: seq<Card>, term: string, category: string, id: int)
    ensures WithoutCard(VisibleCards(cards, term, category), id)
            == VisibleCards(WithoutCard(cards, id), term, category)
  {
    var other := (c: Card) => c.id != id;
    var search := (c: Card) => SearchHit(c, term);
    var inCategory := (c: Card) => c.category == category;
    if term != "" {
      FilterCommute(cards, search, other);
      var afterSearch := Filter(cards, search);
      if category != "All" {
        FilterCommute(afterSearch, inCategory, other);
      }
    } else if category != "All" {
      FilterCommute(cards, inCategory, other);
    }
  }

  /** The update branch's `flashcards.map(card => card._id === id ? savedCard : card)`. */
  function ReplaceCard(cards: seq<Card>, id: int, saved: Card): (r: seq<Card>)
    ensures |r| == |cards|
  {
    seq(|cards|, i requires 0 <= i < |cards| => if cards[i].id == id then saved else cards[i])
  }

  /** Only the cards with the edited id are replaced, each by the saved card; the rest stay in place. */
  lemma ReplaceOnlyMatching(cards: seq<Card>, id: int, saved: Card)
    ensures var r := ReplaceCard(cards, id, saved);
            forall i :: 0 <= i < |cards| ==> r[i] == (if cards[i].id == id then saved else cards[i])
    ensures (forall i :: 0 <= i < |cards| ==> cards[i].id != id) ==> ReplaceCard(cards, id, saved) == cards
  {
  }

  // ================================================================ study-mode stepping

  /** `{ ...currentCard, [name]: value }`: one input of the draft changes, and the draft stays new or stays an edit of the same card. */
  function EditedDraft(d: Draft, field: CardField, value: string): (r: Draft)
    ensures r.id == d.id
    ensures r.question == (if field == Question then value else d.question)
    ensures r.answer == (if field == Answer then value else d.answer)
    ensures r.category == (if field == Category then value else d.category)
  {
    match field
    case Question => d.(question := value)
    case Answer => d.(answer := value)
    case Category => d.(category := value)
  }

  /** `(prev + 1) % filteredCards.length` */
  function NextIndex(i: int, n: int): (r: int)
    requires n > 0
    ensures 0 <= i ==> 0 <= r < n
  {
    JsRem(i + 1, n)
  }

  /** `(prev - 1 + filteredCards.length) % filteredCards.length` */
  function PrevIndex(i: int, n: int): (r: int)
    requires n > 0
    ensures 1 <= i + n ==> 0 <= r < n
  {
    JsRem(i - 1 + n, n)
  }

  /** Inside the list, `next` moves one card on and wraps from the last card to the first. */
  lemma NextIndexSteps(i: int, n: int)
    requires 0 <= i < n
    ensures NextIndex(i, n) == if i == n - 1 then 0 else i + 1
  {
    if i == n - 1 {
      MultipleRemZero(n, n, 1);
    } else {
      RemOfMultiplePlus(0, n, i + 1);
    }
  }

  /** Inside the list, `prev` moves one card back and wraps from the first card to the last. */
  lemma PrevIndexSteps(i: int, n: int)
    requires 0 <= i < n
    ensures PrevIndex(i, n) == if i == 0 then n - 1 else i - 1
  {
    if i == 0 {
      RemOfMultiplePlus(0, n, n - 1);
    } else {
      RemOfMultiplePlus(1, n, i - 1);
    }
  }

  /** Inside the list, `prev` undoes `next` and `next` undoes `prev`. */
  lemma PrevUndoesNext(i: int, n: int)
    requires 0 <= i < n
    ensures PrevIndex(NextIndex(i, n), n) == i
    ensures NextIndex(PrevIndex(i, n), n) == i
  {
    NextIndexSteps(i, n);
    PrevIndexSteps(i, n);
    NextIndexSteps(PrevIndex(i, n), n);
    PrevIndexSteps(NextIndex(i, n), n);
  }

  // ================================================================ the page state

  class FlashcardsView {
    var flashcards: seq<Card>
    var filteredCards: seq<Card>
    var categories: seq<string>
    var activeCategory: string
    var searchTerm: string
    var isEditing: bool
    var currentCard: Option<Draft>
    var isStudyMode: bool
    var currentStudyIndex: int

    /** The study index never goes negative. */
    ghost predicate Valid()
      reads this
    {
      currentStudyIndex >= 0
    }

    /** The initial state: nothing loaded, the default categories, "All", no search. */
    constructor()
      ensures Valid()
      ensures flashcards == [] && filteredCards == [] && categories == DefaultCategories
      ensures activeCategory == "All" && searchTerm == ""
      ensures !isEditing && currentCard == None && !isStudyMode && currentStudyIndex == 0
    {
      flashcards := [];
      filteredCards := [];
      categories := DefaultCategories;
      activeCategory := "All";
      searchTerm := "";
      isEditing := false;
      currentCard := None;
      isStudyMode := false;
      currentStudyIndex := 0;
    }

    /** The effect over `[flashcards, searchTerm, activeCategory]`: recompute the shown list. */
    method FilterEffect()
      modifies this
      ensures filteredCards == VisibleCards(flashcards, searchTerm, activeCategory)
      ensures flashcards == old(flashcards) && searchTerm == old(searchTerm) && activeCategory == old(activeCategory)
      ensures categories == old(categories) && isEditing == old(isEditing) && currentCard == old(currentCard)
      ensures isStudyMode == old(isStudyMode) && currentStudyIndex == old(currentStudyIndex)
    {
      var term, category := searchTerm, activeCategory;
      var result := flashcards;
      if term != "" {
        result := Filter(result, (c: Card) => SearchHit(c, term));
      }
      if category != "All" {
        result := Filter(result, (c: Card) => c.category == category);
      }
      filteredCards := result;
    }

    /**
     * `fetchFlashcards` succeeding: both lists take the server's cards, and the filter effect
     * that the new card list triggers then shows those passing the search and category.
     */
    method CardsLoaded(data: seq<Card>)
      modifies this
      ensures flashcards == data && filteredCards == VisibleCards(data, searchTerm, activeCategory)
      ensures categories == old(categories) && activeCategory == old(activeCategory) && searchTerm == old(searchTerm)
      ensures isEditing == old(isEditing) && currentCard == old(currentCard)
      ensures isStudyMode == old(isStudyMode) && currentStudyIndex == old(currentStudyIndex)
    {
      flashcards := data;
      filteredCards := data;
      FilterEffect();
    }

    /** `fetchCategories` succeeding: "All" followed by the server's categories. */
    method CategoriesLoaded(data: seq<string>)
      modifies this
      ensures categories == ["All"] + data
      ensures flashcards == old(flashcards) && filteredCards == old(filteredCards)
      ensures activeCategory == old(activeCategory) && searchTerm == old(searchTerm)
      ensures isEditing == old(isEditing) && currentCard == old(currentCard)
      ensures isStudyMode == old(isStudyMode) && currentStudyIndex == old(currentStudyIndex)
    {
      categories := ["All"] + data;
    }

    /** `handleSearch`, followed by the filter effect it triggers. */
    method HandleSearch(term: string)
      modifies this
      ensures searchTerm == term && filteredCards == VisibleCards(flashcards, term, activeCategory)
      ensures flashcards == old(flashcards) && activeCategory == old(activeCategory) && categories == old(categories)
      ensures isEditing == old(isEditing) && currentCard == old(currentCard)
      ensures isStudyMode == old(isStudyMode) && currentStudyIndex == old(currentStudyIndex)
    {
      searchTerm := term;
      FilterEffect();
    }

    /** `handleCategoryChange`, followed by the filter effect it triggers. */
    method HandleCategoryChange(category: string)
      modifies this
      ensures activeCategory == category && filteredCards == VisibleCards(flashcards, searchTerm, category)
      ensures flashcards == old(flashcards) && searchTerm == old(searchTerm) && categories == old(categories)
      ensures isEditing == old(isEditing) && currentCard == old(currentCard)
      ensures isStudyMode == old(isStudyMode) && currentStudyIndex == old(currentStudyIndex)
    {
      activeCategory := category;
      FilterEffect();
    }

    /** `handleCreateCard`: an empty "Programming" draft in the editor; study mode ends. */
    method HandleCreateCard()
      modifies this
      ensures currentCard == Some(Draft(None, "", "", "Programming")) && isEditing && !isStudyMode
      ensures flashcards == old(flashcards) && filteredCards == old(filteredCards) && categories == old(categories)
      ensures activeCategory == old(activeCategory) && searchTerm == old(searchTerm)
      ensures currentStudyIndex == old(currentStudyIndex)
    {
      currentCard := Some(Draft(None, "", "", "Programming"));
      isEditing := true;
      isStudyMode := false;
    }

    /** `handleEditCard`: a copy of the card in the editor; study mode ends. */
    method HandleEditCard(card: Card)
      modifies this
      ensures currentCard == Some(Draft(Some(card.id), card.question, card.answer, card.category))
      ensures isEditing && !isStudyMode
      ensures flashcards == old(flashcards) && filteredCards == old(filteredCards) && categories == old(categories)
      ensures activeCategory == old(activeCategory) && searchTerm == old(searchTerm)
      ensures currentStudyIndex == old(currentStudyIndex)
    {
      currentCard := Some(Draft(Some(card.id), card.question, card.answer, card.category));
      isEditing := true;
      isStudyMode := false;
    }

    /** `handleCancelEdit` */
    method HandleCancelEdit()
      modifies this
      ensures !isEditing && currentCard == None
      ensures flashcards == old(flashcards) && filteredCards == old(filteredCards) && categories == old(categories)
      ensures activeCategory == old(activeCategory) && searchTerm == old(searchTerm)
      ensures isStudyMode == old(isStudyMode) && currentStudyIndex == old(currentStudyIndex)
    {
      isEditing := false;
      currentCard := None;
    }

    /** `handleCardChange`: an input of the open editor changes the draft and nothing else. */
    method HandleCardChange(field: CardField, value: string)
      requires currentCard.Some?
      modifies this
      ensures currentCard == Some(EditedDraft(old(currentCard).value, field, value))
      ensures flashcards == old(flashcards) && filteredCards == old(filteredCards) && categories == old(categories)
      ensures activeCategory == old(activeCategory) && searchTerm == old(searchTerm) && isEditing == old(isEditing)
      ensures isStudyMode == old(isStudyMode) && currentStudyIndex == old(currentStudyIndex)
    {
      currentCard := Some(EditedDraft(currentCard.value, field, value));
    }

    /**
     * `handleDeleteCard(id)`. When the server's delete succeeds the card leaves both lists and
     * the filter effect re-runs on the reduced list; when it fails nothing changes.
     */
    method HandleDeleteCard(id: int, succeeded: bool)
      modifies this
      ensures succeeded ==> flashcards == WithoutCard(old(flashcards), id)
                            && filteredCards == VisibleCards(flashcards, searchTerm, activeCategory)
      ensures succeeded && old(filteredCards) == VisibleCards(old(flashcards), searchTerm, activeCategory) ==>
                filteredCards == WithoutCard(old(filteredCards), id)
      ensures !succeeded ==> flashcards == old(flashcards) && filteredCards == old(filteredCards)
      ensures categories == old(categories) && activeCategory == old(activeCategory) && searchTerm == old(searchTerm)
      ensures isEditing == old(isEditing) && currentCard == old(currentCard)
      ensures isStudyMode == old(isStudyMode) && currentStudyIndex == old(currentStudyIndex)
    {
      if succeeded {
        ghost var shown := VisibleCards(flashcards, searchTerm, activeCategory);
        DeleteKeepsFilterInStep(flashcards, searchTerm, activeCategory, id);
        flashcards := WithoutCard(flashcards, id);
        filteredCards := WithoutCard(filteredCards, id);
        FilterEffect();
        assert filteredCards == WithoutCard(shown, id);
      }
    }

    /**
     * `handleSaveCard`, with `saved` the card the server returns. A blank question or answer
     * is refused with nothing changed. Otherwise an edited card replaces the loaded cards with
     * its id, a new card is appended, the editor closes and the filter effect re-runs; a
     * failed request changes nothing.
     */
    method HandleSaveCard(saved: Card, succeeded: bool) returns (refused: bool)
      requires currentCard.Some?
      modifies this
      ensures refused <==> IsBlank(old(currentCard).value.question) || IsBlank(old(currentCard).value.answer)
      ensures refused || !succeeded ==>
                flashcards == old(flashcards) && currentCard == old(currentCard) && isEditing == old(isEditing)
      ensures !refused && succeeded ==>
                !isEditing && currentCard == None
                && flashcards == (match old(currentCard).value.id
                                  case Some(id) => ReplaceCard(old(flashcards), id, saved)
                                  case None => old(flashcards) + [saved])
      ensures refused || !succeeded ==> filteredCards == old(filteredCards)
      ensures !refused && succeeded ==> filteredCards == VisibleCards(flashcards, searchTerm, activeCategory)
      ensures categories == old(categories)
      ensures activeCategory == old(activeCategory) && searchTerm == old(searchTerm)
      ensures isStudyMode == old(isStudyMode) && currentStudyIndex == old(currentStudyIndex)
    {
      var draft := currentCard.value;
      if Trim(draft.question) == "" || Trim(draft.answer) == "" {
        return true;
      }
      refused := false;
      if !succeeded {
        return;
      }
      match draft.id {
        case Some(id) =>
          flashcards := ReplaceCard(flashcards, id, saved);
        case None =>
          flashcards := flashcards + [saved];
      }
      isEditing := false;
      currentCard := None;
      FilterEffect();
    }

    /** `startStudyMode`: nothing on an empty shown list; otherwise study from the first card. */
    method StartStudyMode()
      requires Valid()
      modifies this
      ensures Valid()
      ensures old(filteredCards) == [] ==>
                isStudyMode == old(isStudyMode) && isEditing == old(isEditing) && currentStudyIndex == old(currentStudyIndex)
      ensures old(filteredCards) != [] ==> isStudyMode && !isEditing && currentStudyIndex == 0
      ensures flashcards == old(flashcards) && filteredCards == old(filteredCards) && categories == old(categories)
      ensures activeCategory == old(activeCategory) && searchTerm == old(searchTerm) && currentCard == old(currentCard)
    {
      if |filteredCards| == 0 {
        return;
      }
      isStudyMode := true;
      isEditing := false;
      currentStudyIndex := 0;
    }

    /** `stopStudyMode` */
    method StopStudyMode()
      modifies this
      ensures Valid()
      ensures !isStudyMode && currentStudyIndex == 0
      ensures flashcards == old(flashcards) && filteredCards == old(filteredCards) && categories == old(categories)
      ensures activeCategory == old(activeCategory) && searchTerm == old(searchTerm)
      ensures isEditing == old(isEditing) && currentCard == old(currentCard)
    {
      isStudyMode := false;
      currentStudyIndex := 0;
    }

    /**
     * `nextCard`: report the shown card as reviewed and move to the next one, wrapping from the
     * last to the first. The review request's outcome does not matter.
     */
    method NextCard() returns (reviewedId: int)
      requires Valid() && currentStudyIndex < |filteredCards|
      modifies this
      ensures Valid()
      ensures flashcards == old(flashcards) && filteredCards == old(filteredCards) && categories == old(categories)
      ensures reviewedId == old(filteredCards[currentStudyIndex]).id
      ensures currentStudyIndex == NextIndex(old(currentStudyIndex), |filteredCards|)
      ensures currentStudyIndex < |filteredCards|
      ensures activeCategory == old(activeCategory) && searchTerm == old(searchTerm)
      ensures isEditing == old(isEditing) && currentCard == old(currentCard) && isStudyMode == old(isStudyMode)
    {
      reviewedId := filteredCards[currentStudyIndex].id;
      currentStudyIndex := NextIndex(currentStudyIndex, |filteredCards|);
    }

    /** `prevCard`: move to the previous card, wrapping from the first to the last. */
    method PrevCard()
      requires Valid() && filteredCards != []
      modifies this
      ensures Valid()
      ensures flashcards == old(flashcards) && filteredCards == old(filteredCards) && categories == old(categories)
      ensures currentStudyIndex == PrevIndex(old(currentStudyIndex), |filteredCards|)
      ensures currentStudyIndex < |filteredCards|
      ensures activeCategory == old(activeCategory) && searchTerm == old(searchTerm)
      ensures isEditing == old(isEditing) && currentCard == old(currentCard) && isStudyMode == old(isStudyMode)
    {
      currentStudyIndex := PrevIndex(currentStudyIndex, |filteredCards|);
    }
  }
}
