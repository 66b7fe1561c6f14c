# Flashcard study app: a verified model of its logic

The application lets a learner keep decks of question/answer flashcards, import new decks
from pasted text through a flashcard generator, study a deck card by card, and keeps a
per-deck mastery percentage in the browser's key-value store. Almost all of the code is
markup. This project models its four pieces of logic in Dafny and proves what they promise:

- `types.dfy` (module `Types`): the `Flashcard`, `Deck` and `ViewState` records.
- `app.dfy` (module `App`): the deck collection and how it is stored.
  - The mount-time load seeds three sample decks when nothing is stored.
  - The write-back runs after every change, but only while the collection is non-empty.
  - Creating a deck puts the new deck in front. Updating mastery maps over decks by id.
  - The active deck is looked up by id.
  - The view selector (home, library, study), the hero button, and the wiring that feeds
    the study screen's result and the import dialog's cards back into the collection.
  - `AppState` is a class whose methods update `decks`, `view`, `activeDeckId`,
    `isImportModalOpen` and `store`. The contracts of the methods that change the collection
    or the store are stated in terms of pure functions (`NewDeck`, `WithMastery`, `Load`,
    `WriteBack`), and the lemmas are stated about those. The deck lookup is stated in terms
    of `FindIndex`.
- `flashcard_study.dfy` (module `FlashcardStudy`): one study session as a class with
  `currentIndex`, `isFlipped` and `correctCount`.
  - The flip toggle and `HandleNext` are its methods.
  - A ghost history of grades ties `correctCount` to the grades given.
  - The final mastery is `Math.round((correct / N) * 100)`, computed exactly on integers as
    `(200 * correct + N) / (2 * N)`.
- `import_modal.dfy` (module `ImportModal`): the import form as a class with `title`,
  `text`, `isProcessing` and `error`.
  - The asynchronous submit is split in two steps: `Submit` validates and starts the
    generator, and `Complete` receives the generator's outcome.
  - The outcome is a parameter: a list of pairs, or a failure with its message.
  - `trim` is written out over the ECMAScript white-space and line-terminator code points.
- `recent_item.dfy` (module `RecentItem`): the relative-time text, the category icon and
  colour, and the status and button text of a recent-activity row.

Outside inputs are parameters:
- The current time `now`.
- Today's date as text.
- Fresh ids: a deck id and one id per card.
- The generator's outcome.

The browser store is a `map<string, Blob>`. A `Blob` is either a serialised deck collection
or text that does not parse as one.

Where the code does something one might not expect, the model follows the code:
- A stored value that fails to parse leaves the collection empty. It does not fall back to
  the sample decks.
- `updateDeckMastery` does not clamp the mastery. It updates every deck with the id, and an
  unknown id is not reported.
- `handleNext` grades an unflipped card. Only the hidden grading buttons prevent it.
- Closing the import dialog does not discard a pending generator result. The form keeps its
  state while closed, and the result still creates a deck.

## Model

| member | source | states |
|---|---|---|
| `App.Stored` | App.tsx:20 | `localStorage.getItem` of the storage key: the stored value, or nothing when the key is absent; its body is the definition, and `App.ReloadRestores` and `App.EmptyNeverOverwrites` state its properties |
| `App.Serialize` | App.tsx:69-76 | `JSON.stringify` of a collection, as written under the storage key; its body is the definition, and `App.ParseSerialize` states its properties |
| `App.Parse` | App.tsx:23 | `JSON.parse` of a stored value: the collection, or a failure for text that is not one; its body is the definition, and `App.ParseSerialize` states its properties |
| `App.Truthy` | App.tsx:21 | the `if (savedDecks)` test: only an empty stored string is falsy; its body is the definition |
| `App.ParseSerialize` | App.tsx:20-23 | a serialised collection parses back to itself and is never the empty (falsy) string |
| `App.Seed` | App.tsx:29-67 | the three sample decks, field for field, with study and creation times relative to `now`; its body is the definition, and `App.SeedWellFormed` states its properties |
| `App.SeedWellFormed` | App.tsx:29-67 | the sample decks have ids "1", "2", "3" and distinct card ids c1..c5; every deck has a card; every mastery is in [0,100] |
| `App.Load` | App.tsx:19-71 | a stored value that is present, non-empty and parses is restored; one that does not parse fails and seeds nothing; a missing or empty value seeds the sample decks |
| `App.WriteBack` | App.tsx:74-78 | only the storage key changes; an empty collection leaves the store as it was; a non-empty one is stored so that it parses back to itself |
| `App.ReloadRestores` | App.tsx:19-78 | a non-empty collection that was written back is the collection the next load restores, same decks in the same order |
| `App.EmptyNeverOverwrites` | App.tsx:75-76 | writing back an empty collection changes neither the stored value nor what the next load sees |
| `App.ImportCards` | App.tsx:86 | the cards keep the input questions and answers in order, with the same count, card i getting fresh id i |
| `App.NewDeck` | App.tsx:81-89 | the new deck has the given id and title, category "General", mastery 0, no last-studied time, createdAt now, the "Imported on" description, and the imported cards |
| `App.CreateKeepsIdsUnique` | App.tsx:82-90 | with fresh ids, prepending the new deck keeps deck ids and card ids unique across the collection |
| `App.WithMastery` | App.tsx:99-103 | same length; decks with another id are unchanged; decks with the id change only mastery and last-studied time |
| `App.UnknownIdUnchanged` | App.tsx:100-102 | an id no deck has leaves the collection equal to what it was |
| `App.WithMasteryKeepsIdsAndRange` | App.tsx:99-103 | the update keeps every id in place, keeps every deck studiable, and keeps mastery in range when the new value is in range |
| `App.SessionResultKeepsRange` | App.tsx:216-219 | the mastery a finished session reports keeps every deck's mastery in [0,100], although the update does not clamp |
| `App.FindIndex` | App.tsx:105 | absent only when no deck has the id; otherwise the position of the first deck in order with that id |
| `App.FindDeck` | App.tsx:105 | `decks.find`: the deck at the position `FindIndex` gives, if any; its body is the definition, and `App.FindDeckSpec` and `App.FindAfterUpdate` state its properties |
| `App.FindDeckSpec` | App.tsx:105 | the lookup finds nothing exactly when no deck has the id; a deck it finds belongs to the collection and has that id |
| `App.FindAfterUpdate` | App.tsx:99-105 | an update does not move the first deck with the id; the deck found there is the one found before, with the new mastery and study time |
| `App.RecentDecks` | App.tsx:149 | recent activity lists a prefix of the collection, at most five decks, and all of them when there are fewer |
| `App.AppState.constructor` | App.tsx:13-16 | the first render: view HOME, no decks, no active deck, dialog closed |
| `App.AppState.SyncToStore` | App.tsx:74-78 | the store becomes the write-back of the current collection, after which a non-empty collection is what is stored; nothing else changes |
| `App.AppState.Mount` | App.tsx:19-78 | restored, failed or seeded as `Load` decides; a failed load writes nothing; a seed is written under the storage key |
| `App.AppState.CreateDeck` | App.tsx:80-92 | the collection becomes the new deck followed by the old decks in order; it is stored; the dialog closes; view and active deck are kept |
| `App.AppState.StartStudying` | App.tsx:94-97 | the active deck id is set and the view becomes STUDY; collection and store are untouched |
| `App.AppState.UpdateDeckMastery` | App.tsx:99-103 | the collection becomes `WithMastery` of the old one and is written back; view, active deck and dialog are kept |
| `App.AppState.ActiveDeck` | App.tsx:105 | a deck is found only for a selected id, and it is the first deck in order with that id, as `find` returns it; a selected id that some deck has is always found |
| `App.AppState.StudyScreenShown` | App.tsx:212 | the study screen is rendered when the view is STUDY and the active deck exists; its body is the definition |
| `App.AppState.FinishStudy` | App.tsx:212-221 | shown only when the view is STUDY and the active deck exists; records the mastery on the active deck's id, writes back, and returns to HOME |
| `App.AppState.ShowHome` | App.tsx:215 | the study screen's back button sets the view to HOME and changes nothing else |
| `App.AppState.ShowLibrary` | App.tsx:136 | "View Library" sets the view to LIBRARY and changes nothing else |
| `App.AppState.SetImportModalOpen` | App.tsx:230 | opening or closing the dialog changes only the open flag |
| `App.AppState.HeroStartStudying` | App.tsx:116-119 | with decks, studies the first deck; without decks, opens the import dialog and leaves the view alone |
| `App.HeroOpensFirstDeck` | App.tsx:116-119 | on a first run the hero button opens the study screen on sample deck "1" |
| `App.ImportCompleted` | App.tsx:228-232 | a deck is created exactly when the generator gave a non-empty list, under the title the dialog had at submit time; it is then stored and the dialog closes; otherwise collection, store and dialog flag are untouched; view and active deck are kept either way; the form ends idle, with cleared fields after an import or the error message and its fields kept otherwise |
| `FlashcardStudy.RoundedPercent` | components/FlashcardStudy.tsx:28 | the result is in [0,100] and is the nearest whole percentage of correct/total, with halves rounded up as Math.round does |
| `FlashcardStudy.RoundedPercentUnique` | components/FlashcardStudy.tsx:28 | the rounding condition has exactly one solution, so the integer formula equals Math.round of the exact ratio |
| `FlashcardStudy.RoundedPercentExtremes` | components/FlashcardStudy.tsx:28 | all correct gives 100 and none correct gives 0, for every deck size |
| `FlashcardStudy.RoundedPercentMonotone` | components/FlashcardStudy.tsx:28 | more correct answers never give a lower mastery |
| `FlashcardStudy.CountCorrect` | components/FlashcardStudy.tsx:20 | the number of correct grades never exceeds the number of grades |
| `FlashcardStudy.SessionMastery` | components/FlashcardStudy.tsx:28 | the final mastery of a session: the rounded percentage of correct grades over all grades; its body is the definition, and `FlashcardStudy.SessionMasteryExtremes` and `FlashcardStudy.RoundedPercentUnique` state its properties |
| `FlashcardStudy.SessionMasteryExtremes` | components/FlashcardStudy.tsx:19-31 | a session with every card graded right scores 100; one with every card wrong scores 0 |
| `FlashcardStudy.StudySession.constructor` | components/FlashcardStudy.tsx:12-14 | a session starts on card 0, unflipped, with no correct answers |
| `FlashcardStudy.StudySession.CorrectAtMostIndex` | components/FlashcardStudy.tsx:19-26 | while the session runs, correctCount <= currentIndex < N |
| `FlashcardStudy.StudySession.CurrentCard` | components/FlashcardStudy.tsx:16 | the card shown is always a card of the deck: the index stays within the deck |
| `FlashcardStudy.StudySession.Flip` | components/FlashcardStudy.tsx:53 | clicking the card toggles the flip and changes neither index nor count |
| `FlashcardStudy.StudySession.HandleNext` | components/FlashcardStudy.tsx:19-31 | the count rises by one exactly on a correct grade; before the last card the index advances by one and the card turns face down; on the last card the index stays and the result is the rounded percentage of correct grades over all grades |
| `FlashcardStudy.OneCardCorrect` | components/FlashcardStudy.tsx:19-31 | a one-card deck graded right finishes at once with 100 |
| `FlashcardStudy.TwoCardsWrongThenRight` | components/FlashcardStudy.tsx:19-31 | a two-card deck graded wrong then right reports nothing after the first card and 50 after the second |
| `FlashcardStudy.GradeWithoutFlipping` | components/FlashcardStudy.tsx:19-20 | grading an unflipped card is accepted and counted: only the hidden buttons stand in the way |
| `ImportModal.TrimStart` | components/ImportModal.tsx:20 | removes exactly the leading white space: what is dropped is all white space and what is left starts with a non-space |
| `ImportModal.TrimEnd` | components/ImportModal.tsx:20 | removes exactly the trailing white space: what is dropped is all white space and what is left ends with a non-space |
| `ImportModal.Trim` | components/ImportModal.tsx:20 | `String.prototype.trim`: leading then trailing white space removed; its body is the definition, and `ImportModal.TrimSpec` states its properties |
| `ImportModal.IsBlank` | components/ImportModal.tsx:20 | `!s.trim()`: the trimmed string is empty; its body is the definition, and `ImportModal.BlankIffAllSpace` states its meaning |
| `ImportModal.BlankIffAllSpace` | components/ImportModal.tsx:20 | a field is blank after trimming exactly when every character of it is white space |
| `ImportModal.TrimSpec` | components/ImportModal.tsx:20 | the trimmed text is a slice of the input with no white space at either end, and trimming again changes nothing |
| `ImportModal.ValidationError` | components/ImportModal.tsx:20-23 | no error exactly when both title and text have a non-space character; otherwise the "Please provide both" message |
| `ImportModal.Interpret` | components/ImportModal.tsx:28-37 | cards are handed on exactly when the generator gave a non-empty list; an empty list gives "No flashcards could be extracted from this text."; a failure gives its own message, or "Failed to process text." when it has none |
| `ImportModal.ImportForm.constructor` | components/ImportModal.tsx:12-15 | the form starts with empty title and text, not processing, and no error |
| `ImportModal.ImportForm.SetTitle` | components/ImportModal.tsx:63 | typing in the title field changes only the title |
| `ImportModal.ImportForm.SetText` | components/ImportModal.tsx:74 | typing in the text area changes only the text |
| `ImportModal.ImportForm.Submit` | components/ImportModal.tsx:19-26 | while processing, a click does nothing; blank fields set the error and do not start the generator or touch the processing flag; otherwise processing starts, the error clears, and the generator gets the text |
| `ImportModal.ImportForm.Complete` | components/ImportModal.tsx:28-41 | on cards, hands on the submit-time title, untrimmed, with the cards and clears both fields; on an empty list or a failure, sets the error and keeps the fields; processing ends in every case |
| `ImportModal.EmptyResultIsAnError` | components/ImportModal.tsx:28-32 | an empty generator result imports nothing and shows "No flashcards could be extracted from this text." |
| `RecentItem.NatToString` | components/RecentItem.tsx:15 | a count renders as a non-empty string of decimal digits with no leading zero |
| `RecentItem.ParseNatToString` | components/RecentItem.tsx:15 | the rendered count reads back as the same number, so different counts render differently |
| `RecentItem.NatToStringInjective` | components/RecentItem.tsx:15-16 | different counts render as different text |
| `RecentItem.TimeAgo` | components/RecentItem.tsx:11-18 | at least a day elapsed: whole days, "s" exactly when more than one; at least an hour: whole hours, same rule; otherwise, including a future timestamp, "Just now" |
| `RecentItem.CountAgo` | components/RecentItem.tsx:15-16 | the template `<n> <unit>` with an "s" when n is more than one, then " ago"; its body is the definition |
| `RecentItem.FloorDivDiv` | components/RecentItem.tsx:13-14 | flooring to hours and then to days equals flooring to days; each count is positive exactly when a full unit has elapsed |
| `RecentItem.JustNowIffUnderAnHour` | components/RecentItem.tsx:15-17 | the text is "Just now" exactly when less than one full hour has elapsed |
| `RecentItem.Icon` | components/RecentItem.tsx:20-27 | `getIcon`: the icon name per category, the book icon by default; its body is the definition |
| `RecentItem.ColorClass` | components/RecentItem.tsx:29-36 | `getColorClass`: the class list per category, green by default, built from one template per colour; its body is the definition |
| `RecentItem.IconMap` | components/RecentItem.tsx:20-27 | Science, Language and History each get their own icon; every other category gets the book icon |
| `RecentItem.ColorMap` | components/RecentItem.tsx:29-36 | Science, Language and History each get their own colour class; every other category gets the green class |
| `RecentItem.Studied` | components/RecentItem.tsx:49-60 | the truthiness test on `lastStudiedAt`: present and not 0; its body is the definition, and `RecentItem.ResumeIffLastStudied` states its properties |
| `RecentItem.StatusText` | components/RecentItem.tsx:49 | "Last studied" with the relative time when the deck was studied, "Not started" otherwise; its body is the definition |
| `RecentItem.ActionLabel` | components/RecentItem.tsx:60 | "Resume" when the deck was studied, "Start" otherwise; its body is the definition |
| `RecentItem.ResumeIffLastStudied` | components/RecentItem.tsx:49-60 | the button says "Resume" exactly when the status shows a last study time; a timestamp of 0 counts as never studied |

## Left out

- The generator service (a remote text-generation call and the JSON parse of its answer) is not part of this model. Its outcome is a parameter of `ImportForm.Complete`: a list of pairs, or a failure with its message. A failed parse inside the service returns an empty list, which the form treats as the empty-result error.
- The stored text and the JSON format are not modelled. A stored value is a serialised collection or text that does not parse as one. A stored JSON value that parses but is not a deck array is not modelled.
- Fresh ids, the current time and the localised date text are parameters. Ids are fresh only where a lemma requires it (`App.CreateKeepsIdsUnique`).
- The 150 ms delay before the index advances is not modelled. Effect scheduling, re-rendering and the await are not modelled either. Each handler is one atomic step, and the write-back runs at the end of each step that changes the collection.
- `FlashcardStudy.StudySession.HandleNext`: the session ends when the last card is graded, because the finish callback leaves the study screen. A second call after that is not modelled.
- `FlashcardStudy.RoundedPercent`: this is the exact integer form of `Math.round((correct / N) * 100)`. Floating-point error in the source's division and multiplication is not modelled. It matters on real decks: 23 of 40 cards gives 23/40 = 0.57499999999999995… as a double, times 100 is 57.49999999999999, so the source reports 57 where the model reports 58. Among decks of up to 100 cards, the only other such input is 46 of 80.
- The progress bar, the mastery colour thresholds and all layout and styling are display only and not modelled. Header, hero, action card and footer components are markup only.
- The dialog's `isOpen` check only decides rendering. The form's state outlives closing, and the model keeps it the same way.
- `RecentItem.NatToString`: renders non-negative integer counts only. A count is never negative where it is shown.
- `RecentItem.ResumeIffLastStudied`: NaN timestamps, which are also falsy, are not modelled.
- Store access that throws is not modelled. Reading and writing the browser store (App.tsx:20, 69 and 76) happen outside any error handler; only the parse is guarded. A write the browser refuses (a full quota, storage turned off) escapes the effect, while the model's store accepts every write.
- `FlashcardStudy.StudySession.constructor` requires a deck with at least one card. The study screen reads `deck.cards[currentIndex]` (components/FlashcardStudy.tsx:16) and uses it at :59, so it fails on a deck without cards. A restored collection can hold such a deck, and `AppState.StartStudying` and `AppState.FinishStudy` accept it. The failure of the screen on that deck is not modelled.
- `RecentItem.TimeAgo` and `RecentItem.NatToString`: timestamps, differences and counts are exact unbounded integers. The source computes them as double-precision numbers. Its floor division is exact only while the difference is below 2^53 milliseconds, and a count of 10^21 or more prints in exponent form. Only a hand-edited stored timestamp can reach these sizes, since the application stores only current times.
