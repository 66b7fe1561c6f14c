/**
 * The application shell: the deck collection and its persistence in the browser's key-value
 * store, the screen selector, the deck being studied and whether the import dialog is open.
 *
 * The key-value store is a map from keys to stored blobs. A blob is either the serialised
 * form of a deck collection or some other text that does not parse as one. Fresh ids,
 * the current time and today's date as text are parameters of the operations that need them.
 */
module App {
  import opened Types
  import FlashcardStudy
  import ImportModal

  const StorageKey: string := "flashmaster_decks"
  const ImportedCategory: string := "General"

  // ---------------------------------------------------------------------------------------
  // The stored value.

  /** A stored string: a serialised deck collection, or text that is not one. */
  datatype Blob = Serialized(decks: seq<Deck>) | Unparsable(raw: string)

  function Serialize(decks: seq<Deck>): Blob
  {
    Serialized(decks)
  }

  /** Parsing a stored string: the collection it encodes, or a failure. */
  function Parse(b: Blob): Option<seq<Deck>>
  {
    match b
    case Serialized(decks) => Some(decks)
    case Unparsable(_) => None
  }

  /**
   * The truthiness test on the stored string. A serialised collection is never the empty
   * string, so only an empty stored string is falsy, and it counts as nothing stored.
   */
  predicate Truthy(b: Blob)
  {
    !(b.Unparsable? && b.raw == "")
  }

  lemma ParseSerialize(decks: seq<Deck>)
    ensures Parse(Serialize(decks)) == Some(decks) && Truthy(Serialize(decks))
  {
  }

  // ---------------------------------------------------------------------------------------
  // The sample decks written on first run.

  function Seed(now: int): seq<Deck>
  {
    [ Deck("1", "Biology 101 - Cell Structures", "Key components of plant and animal cells.", "Science",
           [ Flashcard("c1", "What is the powerhouse of the cell?", "Mitochondria"),
             Flashcard("c2", "What organelle is responsible for photosynthesis?", "Chloroplast") ],
           Some(now - 7200000), 85, now),
      Deck("2", "Spanish Vocabulary - Week 4", "Common verbs and household objects.", "Language",
           [ Flashcard("c3", "Translate: To eat", "Comer"),
             Flashcard("c4", "Translate: House", "Casa") ],
           Some(now - 86400000), 42, now),
      Deck("3", "European History 1900-1950", "World wars and major geopolitical shifts.", "History",
           [ Flashcard("c5", "When did WWI end?", "1918") ],
           None, 0, now - 259200000) ]
  }

  /** The ids of every card of a collection, deck by deck. */
  function AllCardIds(decks: seq<Deck>): seq<string>
  {
    if decks == [] then [] else CardIds(decks[0].cards) + AllCardIds(decks[1..])
  }

  function CardIds(cards: seq<Flashcard>): seq<string>
  {
    seq(|cards|, i requires 0 <= i < |cards| => cards[i].id)
  }

  /** Every deck has at least one card, so any of them can be studied. */
  predicate AllStudiable(decks: seq<Deck>)
  {
    forall i :: 0 <= i < |decks| ==> |decks[i].cards| >= 1
  }

  /** The sample decks are "1", "2" and "3", studiable, with unique card ids and valid mastery. */
  lemma SeedWellFormed(now: int)
    ensures DeckIds(Seed(now)) == ["1", "2", "3"]
    ensures Distinct(DeckIds(Seed(now)))
    ensures AllCardIds(Seed(now)) == ["c1", "c2", "c3", "c4", "c5"]
    ensures Distinct(AllCardIds(Seed(now)))
    ensures AllStudiable(Seed(now)) && MasteryInRange(Seed(now))
  {
    var s := Seed(now);
    assert s[1..][1..][1..] == [];
    assert AllCardIds(s[1..][1..]) == ["c5"];
    assert AllCardIds(s[1..]) == ["c3", "c4", "c5"];
  }

  // ---------------------------------------------------------------------------------------
  // Loading and writing back.

  datatype LoadOutcome = Restored(decks: seq<Deck>) | LoadFailed | Seeded(decks: seq<Deck>)

  /**
   * The mount-time load. A stored value that parses becomes the collection; one that does not
   * parse is logged and the collection stays empty; no (or an empty) stored value seeds.
   */
  function Load(stored: Option<Blob>, now: int): (r: LoadOutcome)
    ensures r.LoadFailed? <==> stored.Some? && Truthy(stored.value) && Parse(stored.value).None?
    ensures r.Seeded? <==> stored.None? || !Truthy(stored.value)
    ensures r.Seeded? ==> r.decks == Seed(now)
    ensures r.Restored? ==> Some(r.decks) == Parse(stored.value)
  {
    match stored
    case Some(b) =>
      if Truthy(b) then
        match Parse(b)
        case Some(decks) => Restored(decks)
        case None => LoadFailed
      else Seeded(Seed(now))
    case None => Seeded(Seed(now))
  }

  /** The store after the write-back effect: written only while the collection is non-empty. */
  function WriteBack(store: map<string, Blob>, decks: seq<Deck>): (r: map<string, Blob>)
    ensures forall k :: k != StorageKey ==> (k in r <==> k in store) && (k in store ==> r[k] == store[k])
    ensures decks == [] ==> r == store
    ensures decks != [] ==> StorageKey in r && Parse(r[StorageKey]) == Some(decks)
  {
    if |decks| > 0 then store[StorageKey := Serialize(decks)] else store
  }

  /** The stored value is what the next start of the application would see. */
  function Stored(store: map<string, Blob>): Option<Blob>
  {
    if StorageKey in store then Some(store[StorageKey]) else None
  }

  /** A collection written back is the collection the next start loads, unchanged and in order. */
  lemma {:induction false} ReloadRestores(store: map<string, Blob>, decks: seq<Deck>, now: int)
    requires decks != []
    ensures Load(Stored(WriteBack(store, decks)), now) == Restored(decks)
  {
    var s := WriteBack(store, decks);
    assert StorageKey in s && s[StorageKey] == Serialize(decks);
    ParseSerialize(decks);
  }

  /** An empty collection is never written, so it never replaces what is stored. */
  lemma EmptyNeverOverwrites(store: map<string, Blob>, now: int)
    ensures Stored(WriteBack(store, [])) == Stored(store)
    ensures Load(Stored(WriteBack(store, [])), now) == Load(Stored(store), now)
  {
  }

  // ---------------------------------------------------------------------------------------
  // Creating a deck from imported pairs.

  /** `cards.map(c => ({ ...c, id }))` with one fresh id per card. */
  function ImportCards(inputs: seq<CardInput>, ids: seq<string>): (cards: seq<Flashcard>)
    requires |ids| == |inputs|
    ensures |cards| == |inputs|
    ensures forall i :: 0 <= i < |inputs| ==>
      cards[i].id == ids[i] && cards[i].question == inputs[i].question && cards[i].answer == inputs[i].answer
  {
    if inputs == [] then []
    else [Flashcard(ids[0], inputs[0].question, inputs[0].answer)] + ImportCards(inputs[1..], ids[1..])
  }

  /** The deck built from an import: fresh ids, the "General" category, unstudied, mastery 0. */
  function NewDeck(deckId: string, title: string, inputs: seq<CardInput>, cardIds: seq<string>,
                   dateText: string, now: int): (d: Deck)
    requires |cardIds| == |inputs|
    ensures d.id == deckId && d.title == title && d.createdAt == now
    ensures d.description == "Imported on " + dateText
    ensures d.category == ImportedCategory && d.mastery == 0 && d.lastStudiedAt == None
    ensures CardIds(d.cards) == cardIds
    ensures |d.cards| == |inputs|
    ensures forall i :: 0 <= i < |inputs| ==>
      d.cards[i].question == inputs[i].question && d.cards[i].answer == inputs[i].answer
  {
    var cards := ImportCards(inputs, cardIds);
    assert CardIds(cards) == cardIds;
    Deck(deckId, title, "Imported on " + dateText, ImportedCategory, cards, None, 0, now)
  }

  lemma {:induction false} DistinctConcat(a: seq<string>, b: seq<string>)
    requires Distinct(a) && Distinct(b)
    requires forall i, j :: 0 <= i < |a| && 0 <= j < |b| ==> a[i] != b[j]
    ensures Distinct(a + b)
  {
    var s := a + b;
    forall i, j | 0 <= i < j < |s|
      ensures s[i] != s[j]
    {
      if j < |a| {
        assert s[i] == a[i] && s[j] == a[j];
      } else if i < |a| {
        assert s[i] == a[i] && s[j] == b[j - |a|];
      } else {
        assert s[i] == b[i - |a|] && s[j] == b[j - |a|];
      }
    }
  }

  lemma {:induction false} AllCardIdsPrepend(d: Deck, decks: seq<Deck>)
    ensures AllCardIds([d] + decks) == CardIds(d.cards) + AllCardIds(decks)
  {
    assert ([d] + decks)[1..] == decks;
  }

  /**
   * With fresh ids (a deck id no deck has, card ids distinct and used by no card), prepending
   * the new deck keeps deck ids and card ids unique across the collection.
   */
  lemma CreateKeepsIdsUnique(decks: seq<Deck>, deckId: string, title: string, inputs: seq<CardInput>,
                             cardIds: seq<string>, dateText: string, now: int)
    requires |cardIds| == |inputs|
    requires Distinct(DeckIds(decks)) && Distinct(AllCardIds(decks))
    requires deckId !in DeckIds(decks)
    requires Distinct(cardIds) && forall i :: 0 <= i < |cardIds| ==> cardIds[i] !in AllCardIds(decks)
    ensures Distinct(DeckIds([NewDeck(deckId, title, inputs, cardIds, dateText, now)] + decks))
    ensures Distinct(AllCardIds([NewDeck(deckId, title, inputs, cardIds, dateText, now)] + decks))
  {
    var d := NewDeck(deckId, title, inputs, cardIds, dateText, now);
    var all := [d] + decks;
    assert DeckIds(all) == [deckId] + DeckIds(decks);
    DistinctConcat([deckId], DeckIds(decks));
    AllCardIdsPrepend(d, decks);
    DistinctConcat(cardIds, AllCardIds(decks));
  }

  // ---------------------------------------------------------------------------------------
  // Updating mastery and finding a deck.

  /** `decks.map(d => d.id === id ? { ...d, mastery, lastStudiedAt: now } : d)`. */
  function WithMastery(decks: seq<Deck>, id: string, mastery: int, now: int): (r: seq<Deck>)
    ensures |r| == |decks|
    ensures forall i :: 0 <= i < |decks| && decks[i].id != id ==> r[i] == decks[i]
    ensures forall i :: 0 <= i < |decks| && decks[i].id == id ==>
      r[i] == decks[i].(mastery := mastery, lastStudiedAt := Some(now))
  {
    if decks == [] then []
    else
      var d := decks[0];
      [if d.id == id then d.(mastery := mastery, lastStudiedAt := Some(now)) else d]
        + WithMastery(decks[1..], id, mastery, now)
  }

  /** An id no deck has leaves the collection exactly as it was. */
  lemma {:induction false} UnknownIdUnchanged(decks: seq<Deck>, id: string, mastery: int, now: int)
    requires id !in DeckIds(decks)
    ensures WithMastery(decks, id, mastery, now) == decks
  {
    var r := WithMastery(decks, id, mastery, now);
    forall i | 0 <= i < |decks|
      ensures r[i] == decks[i]
    {
      assert DeckIds(decks)[i] == decks[i].id;
    }
  }

  /** Updating mastery keeps every deck id in place, and mastery within range if it was. */
  lemma WithMasteryKeepsIdsAndRange(decks: seq<Deck>, id: string, mastery: int, now: int)
    ensures DeckIds(WithMastery(decks, id, mastery, now)) == DeckIds(decks)
    ensures MasteryInRange(decks) && 0 <= mastery <= 100 ==> MasteryInRange(WithMastery(decks, id, mastery, now))
    ensures AllStudiable(decks) ==> AllStudiable(WithMastery(decks, id, mastery, now))
  {
    var r := WithMastery(decks, id, mastery, now);
    assert forall i :: 0 <= i < |decks| ==> r[i].id == decks[i].id && r[i].cards == decks[i].cards;
  }

  /** The mastery a finished study session reports keeps every deck's mastery in range. */
  lemma SessionResultKeepsRange(decks: seq<Deck>, id: string, grades: seq<bool>, now: int)
    requires |grades| >= 1 && MasteryInRange(decks)
    ensures MasteryInRange(WithMastery(decks, id, FlashcardStudy.SessionMastery(grades), now))
  {
    WithMasteryKeepsIdsAndRange(decks, id, FlashcardStudy.SessionMastery(grades), now);
  }

  /** The position of the first deck with that id, if any. */
  function FindIndex(decks: seq<Deck>, id: string): (r: Option<nat>)
    ensures r.None? ==> forall i :: 0 <= i < |decks| ==> decks[i].id != id
    ensures r.Some? ==>
      r.value < |decks| && decks[r.value].id == id && forall j :: 0 <= j < r.value ==> decks[j].id != id
  {
    if decks == [] then None
    else if decks[0].id == id then Some(0)
    else match FindIndex(decks[1..], id)
      case None => None
      case Some(k) => Some(k + 1)
  }

  /** `decks.find(d => d.id === id)`: the first deck with that id. */
  function FindDeck(decks: seq<Deck>, id: string): Option<Deck>
  {
    match FindIndex(decks, id)
    case None => None
    case Some(k) => Some(decks[k])
  }

  /** The lookup finds a deck exactly when some deck has the id, and then one carrying that id. */
  lemma FindDeckSpec(decks: seq<Deck>, id: string)
    ensures FindDeck(decks, id).None? <==> id !in DeckIds(decks)
    ensures FindDeck(decks, id).Some? ==> FindDeck(decks, id).value in decks && FindDeck(decks, id).value.id == id
  {
    if id in DeckIds(decks) {
      var i :| 0 <= i < |decks| && DeckIds(decks)[i] == id;
      assert decks[i].id == id;
    }
  }

  /** After an update the deck found under that id is the one found before, with the new mastery and study time. */
  lemma FindAfterUpdate(decks: seq<Deck>, id: string, mastery: int, now: int)
    ensures FindIndex(WithMastery(decks, id, mastery, now), id) == FindIndex(decks, id)
    ensures FindDeck(decks, id).Some? ==>
      FindDeck(WithMastery(decks, id, mastery, now), id)
        == Some(FindDeck(decks, id).value.(mastery := mastery, lastStudiedAt := Some(now)))
  {
    var r := WithMastery(decks, id, mastery, now);
    var f, g := FindIndex(decks, id), FindIndex(r, id);
    assert forall i :: 0 <= i < |decks| ==> r[i].id == decks[i].id;
    if f.Some? && g.Some? {
      if f.value < g.value {
        assert false;
      } else if g.value < f.value {
        assert false;
      }
    } else if f.Some? {
      assert false;
    } else if g.Some? {
      assert false;
    }
  }

  /** The decks listed under recent activity: the first five. */
  function RecentDecks(decks: seq<Deck>): (r: seq<Deck>)
    ensures |r| <= 5 && |r| <= |decks| && r == decks[..|r|]
    ensures |r| == |decks| || |r| == 5
  {
    if |decks| <= 5 then decks else decks[..5]
  }

  // ---------------------------------------------------------------------------------------
  // The application state.

  class AppState {
    var view: ViewState
    var decks: seq<Deck>
    var activeDeckId: Option<string>
    var isImportModalOpen: bool
    var store: map<string, Blob>

    /** A non-empty collection is always what the store holds. */
    ghost predicate Persisted()
      reads this
    {
      decks != [] ==> Stored(store) == Some(Serialize(decks))
    }

    /** The first render: the home screen, no decks yet, nothing selected, the dialog closed. */
    constructor (store: map<string, Blob>)
      ensures view == HOME && decks == [] && activeDeckId == None && !isImportModalOpen
      ensures this.store == store
      ensures Persisted()
    {
      view := HOME;
      decks := [];
      activeDeckId := None;
      isImportModalOpen := false;
      this.store := store;
    }

    /** The write-back effect that follows every change of the collection. */
    method SyncToStore()
      modifies this
      ensures store == WriteBack(old(store), decks) && Persisted()
      ensures decks == old(decks) && view == old(view) && activeDeckId == old(activeDeckId)
      ensures isImportModalOpen == old(isImportModalOpen)
    {
      if |decks| > 0 {
        store := store[StorageKey := Serialize(decks)];
      }
    }

    /**
     * The mount effects: load (seeding and writing the seed when nothing is stored), then the
     * write-back of whatever the collection became.
     */
    method Mount(now: int)
      requires decks == []
      modifies this
      ensures var outcome := Load(Stored(old(store)), now);
        && (outcome.LoadFailed? ==> decks == [] && store == old(store))
        && (outcome.Restored? ==> decks == outcome.decks && store == WriteBack(old(store), decks))
        && (outcome.Seeded? ==> decks == Seed(now) && store == old(store)[StorageKey := Serialize(decks)])
      ensures Persisted()
      ensures view == old(view) && activeDeckId == old(activeDeckId)
      ensures isImportModalOpen == old(isImportModalOpen)
    {
      var saved := Stored(store);
      if saved.Some? && Truthy(saved.value) {
        var parsed := Parse(saved.value);
        if parsed.Some? {
          decks := parsed.value;
        }
      } else {
        var initial := Seed(now);
        decks := initial;
        store := store[StorageKey := Serialize(initial)];
      }
      SyncToStore();
    }

    /**
     * The import dialog's hand-over: a new deck goes in front of the others, the collection is
     * written back and the dialog closes.
     */
    method CreateDeck(title: string, cards: seq<CardInput>, deckId: string, cardIds: seq<string>,
                      dateText: string, now: int)
      requires |cardIds| == |cards|
      modifies this
      ensures decks == [NewDeck(deckId, title, cards, cardIds, dateText, now)] + old(decks)
      ensures store == old(store)[StorageKey := Serialize(decks)] && Persisted()
      ensures !isImportModalOpen
      ensures view == old(view) && activeDeckId == old(activeDeckId)
    {
      decks := [NewDeck(deckId, title, cards, cardIds, dateText, now)] + decks;
      isImportModalOpen := false;
      SyncToStore();
    }

    method StartStudying(deckId: string)
      modifies this
      ensures activeDeckId == Some(deckId) && view == STUDY
      ensures decks == old(decks) && store == old(store) && isImportModalOpen == old(isImportModalOpen)
    {
      activeDeckId := Some(deckId);
      view := STUDY;
    }

    /** Every deck with the id gets the mastery (not clamped) and the study time; then write-back. */
    method UpdateDeckMastery(deckId: string, mastery: int, now: int)
      modifies this
      ensures decks == WithMastery(old(decks), deckId, mastery, now)
      ensures store == WriteBack(old(store), decks) && Persisted()
      ensures view == old(view) && activeDeckId == old(activeDeckId)
      ensures isImportModalOpen == old(isImportModalOpen)
    {
      decks := WithMastery(decks, deckId, mastery, now);
      SyncToStore();
    }

    /** The deck the study screen shows, if a deck has the selected id. */
    function ActiveDeck(): (r: Option<Deck>)
      reads this
      ensures r.Some? ==> activeDeckId.Some? && r.value.id == activeDeckId.value && r.value in decks
      ensures activeDeckId.Some? && (exists i :: 0 <= i < |decks| && decks[i].id == activeDeckId.value) ==> r.Some?
      ensures r.Some? ==>
        FindIndex(decks, activeDeckId.value).Some? && r.value == decks[FindIndex(decks, activeDeckId.value).value]
    {
      match activeDeckId
      case None => None
      case Some(id) => FindDeck(decks, id)
    }

    /** The study screen is on the page: the view is STUDY and the selected deck exists. */
    predicate StudyScreenShown()
      reads this
    {
      view == STUDY && ActiveDeck().Some?
    }

    /** The study screen's finish callback: record the mastery on the active deck, go home. */
    method FinishStudy(mastery: int, now: int)
      requires StudyScreenShown()
      modifies this
      ensures decks == WithMastery(old(decks), old(activeDeckId).value, mastery, now)
      ensures store == WriteBack(old(store), decks) && Persisted()
      ensures view == HOME && activeDeckId == old(activeDeckId)
      ensures isImportModalOpen == old(isImportModalOpen)
    {
      var deck := ActiveDeck().value;
      UpdateDeckMastery(deck.id, mastery, now);
      view := HOME;
    }

    /** The study screen's back button and the logo: back to the home screen. */
    method ShowHome()
      modifies this
      ensures view == HOME
      ensures decks == old(decks) && store == old(store) && activeDeckId == old(activeDeckId)
      ensures isImportModalOpen == old(isImportModalOpen)
    {
      view := HOME;
    }

    /** "View Library" and "View all". */
    method ShowLibrary()
      modifies this
      ensures view == LIBRARY
      ensures decks == old(decks) && store == old(store) && activeDeckId == old(activeDeckId)
      ensures isImportModalOpen == old(isImportModalOpen)
    {
      view := LIBRARY;
    }

    /** "Import Flashcards", "Create New" (open) and the dialog's close and cancel buttons. */
    method SetImportModalOpen(open: bool)
      modifies this
      ensures isImportModalOpen == open
      ensures decks == old(decks) && store == old(store) && activeDeckId == old(activeDeckId)
      ensures view == old(view)
    {
      isImportModalOpen := open;
    }

    /** The hero's "Start Studying": the first deck if there is one, else the import dialog. */
    method HeroStartStudying()
      modifies this
      ensures old(decks) != [] ==>
        activeDeckId == Some(old(decks)[0].id) && view == STUDY && isImportModalOpen == old(isImportModalOpen)
      ensures old(decks) == [] ==> isImportModalOpen && view == old(view) && activeDeckId == old(activeDeckId)
      ensures decks == old(decks) && store == old(store)
    {
      if |decks| > 0 {
        StartStudying(decks[0].id);
      } else {
        isImportModalOpen := true;
      }
    }
  }

  /**
   * The generator's outcome reaches the open dialog, whose hand-over is CreateDeck. Only a
   * non-empty list of pairs creates a deck, under the title the dialog held at submit time.
   * `cardIds` is the fresh-id supply: one id per generated pair.
   */
  method ImportCompleted(app: AppState, form: ImportModal.ImportForm, outcome: ImportModal.Generation,
                         deckId: string, cardIds: seq<string>, dateText: string, now: int)
    returns (created: bool)
    requires form.isProcessing
    requires outcome.Generated? ==> |cardIds| == |outcome.cards|
    modifies app, form
    ensures created <==> outcome.Generated? && |outcome.cards| > 0
    ensures created ==>
      app.decks == [NewDeck(deckId, old(form.submittedTitle), outcome.cards, cardIds, dateText, now)] + old(app.decks)
    ensures created ==> !app.isImportModalOpen && app.store == old(app.store)[StorageKey := Serialize(app.decks)]
    ensures !created ==> app.decks == old(app.decks) && app.store == old(app.store)
    ensures !created ==> app.isImportModalOpen == old(app.isImportModalOpen)
    ensures app.view == old(app.view) && app.activeDeckId == old(app.activeDeckId)
    ensures old(app.Persisted()) ==> app.Persisted()
    ensures !form.isProcessing && form.submittedTitle == old(form.submittedTitle)
    ensures created ==> form.title == "" && form.text == "" && form.error == old(form.error)
    ensures !created ==>
      && form.error == Some(ImportModal.Interpret(outcome).message)
      && form.title == old(form.title) && form.text == old(form.text)
  {
    var request := form.Complete(outcome);
    created := request.Some?;
    if request.Some? {
      app.CreateDeck(request.value.title, request.value.cards, deckId, cardIds, dateText, now);
    }
  }

  /** With a deck present, the hero button opens a study screen on the first deck. */
  method HeroOpensFirstDeck(now: int) returns (shown: bool, studied: string)
    ensures shown && studied == "1"
  {
    var app := new AppState(map[]);
    app.Mount(now);
    app.HeroStartStudying();
    SeedWellFormed(now);
    shown := app.StudyScreenShown();
    studied := app.ActiveDeck().value.id;
  }
}
