/** Records shared by the whole application: flashcards, decks and the screen selector. */
module Types {

  datatype Option<+T> = None | Some(value: T)

  /** One question/answer pair as the generator returns it and as the import form hands it on. */
  datatype CardInput = CardInput(question: string, answer: string)

  /** A card of a deck; the id is unique within the collection. */
  datatype Flashcard = Flashcard(id: string, question: string, answer: string)

  /**
   * A deck. Timestamps are milliseconds since the epoch; `lastStudiedAt` is absent until a
   * study session on the deck finishes. `mastery` is a percentage by convention only: the
   * record type does not enforce the range.
   */
  datatype Deck = Deck(
    id: string,
    title: string,
    description: string,
    category: string,
    cards: seq<Flashcard>,
    lastStudiedAt: Option<int>,
    mastery: int,
    createdAt: int)

  /** The top-level screen selector. IMPORT is declared but no screen selects it. */
  datatype ViewState = HOME | LIBRARY | STUDY | IMPORT

  /** The ids of a deck collection, in order. */
  function DeckIds(decks: seq<Deck>): (ids: seq<string>)
    ensures |ids| == |decks|
    ensures forall i :: 0 <= i < |decks| ==> ids[i] == decks[i].id
  {
    if decks == [] then [] else [decks[0].id] + DeckIds(decks[1..])
  }

  /** No two elements of `s` are equal. */
  predicate Distinct(s: seq<string>)
  {
    forall i, j :: 0 <= i < j < |s| ==> s[i] != s[j]
  }

  /** Every mastery value lies in the percentage range. */
  predicate MasteryInRange(decks: seq<Deck>)
  {
    forall i :: 0 <= i < |decks| ==> 0 <= decks[i].mastery <= 100
  }
}
