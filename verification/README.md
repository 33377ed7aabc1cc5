# mind-deck flashcards, modelled in Dafny

mind-deck is a flashcard service. A user keeps decks of cards; each card has a
front (the term) and a back (the definition). Each card carries a
spaced-repetition state with stability, difficulty, ease factor, interval in
days, review count, last review and due date. Reviewing a card with a quality
from 0 to 5 moves that state under a simplified FSRS rule.

The model covers these parts of the service:

- **Study modes.** Flashcards show due cards first, falling back to the whole
  deck. Multiple choice offers the right back plus up to three other backs, in
  shuffled order. Write mode grades a typed answer. Match mode offers shuffled
  front/back pairs.
- **Study sessions.** A session counts the cards studied, correct and incorrect.
- **Card import.** Cards can be imported from Word paragraphs, from OCR text and
  from spreadsheet rows.

The model has these layers:

- **Entities (`Cards`, `Decks`, `Sessions`).** The entities that the source
  mutates in place are classes: `FSRSState`, `Card`, `Deck` and
  `StudySession`. Each class has a `Value()` snapshot datatype. Every in-place
  method is proved against a function on that value.
- **Scheduler (`Scheduler`).** Functions give the new scheduling state. The
  methods update an `FSRSState` object and are proved to produce exactly that
  state. Lemmas prove the bounds, the direction of change and the worked
  examples.
- **Repositories (`Repositories`).** Each table is an abstract store: a map from
  id to row. The card table also keeps its rows in a fixed order. Loading a row
  builds a fresh entity. Writing a row back copies only the columns the
  SQLAlchemy repository copies. A query without a limit returns exactly the
  matching rows, once each. The due-card query sorts by due date, undated
  cards first, so a limit keeps the earliest due cards.
- **Use cases (`CardUseCases`, `StudyUseCases`).** The card and study use
  cases run against those stores. Each error path is a `Result` error:
  `InvalidQuality`, `CardNotFound`, `DeckNotFound` or `SessionNotFound`.
  Across create, edit and review, the model proves that every stored card is
  either never reviewed or well scheduled.
- **Import (`Import`).** The line-pairing and row-filtering logic of the
  importer, applied after the text has been extracted.
- **Helpers (`Text`, `Common`).** `Text` has Python's `strip`, `lower`, `in`
  and `split` on strings. `Common` has slicing, `Option`/`Result` and
  distinctness.

Conventions:

- **Time** is an integer number of seconds, and a day is 86400 seconds. The
  clock is a parameter `now`, which stands for every `datetime.utcnow()` read
  made during one call.
- **Ids** are integers. A `uuid4()` becomes a parameter `newId` that must not
  already be in the store.
- **`random.shuffle`** is CPython's Fisher–Yates loop, driven by the sequence
  of numbers the generator returns (`draws`).
- **Floats** are exact reals. Python's `int()` is truncation toward zero.

Three points of the code's behaviour are easy to misread:

- **First review is not clamped.** Only later reviews clamp stability to
  `[0.1, 365]` (application/services/fsrs_service.py:77). The first review
  (lines 46-49) does not clamp it. No valid quality leaves the range anyway,
  as `Scheduler.FirstStabilityBounds` shows.
- **Stability figures.** A first review of quality 4 gives stability
  `0.4 * (1 + 4 - 3) = 0.8`. A following review of quality 5 then
  gives `0.8 * 1.5 = 1.2`, with a 2-day interval
  (`Scheduler.FreshGoodReview`, `Scheduler.FreshTwoGoodReviews`).
- **Error kinds.** The code raises `ValueError` for four different reasons,
  modelled as four errors.

## Model

| member | source | states |
|---|---|---|
| Scheduler.Clamp | application/services/fsrs_service.py:77-83 | `max(lo, min(hi, x))` lies in `[lo, hi]`, is `x` inside the range and the nearer bound outside it |
| Scheduler.Truncate | application/services/fsrs_service.py:102 | `int(x)` is the integer at or below `x` for `x >= 0` and at or above it for negative `x` (truncation toward zero) |
| Scheduler.CalculateInterval | application/services/fsrs_service.py:97-105 | the interval is at least one day; exactly 1 after a failed answer (or when `2 * stability < 1`); otherwise the whole part of `2 * stability` |
| Scheduler.FirstStability | application/services/fsrs_service.py:46-49 | first-review stability, unclamped; every quality 0..5 keeps it inside `[0.1, 365]` |
| Scheduler.NextStability | application/services/fsrs_service.py:66-74 | later-review stability before the clamp; for non-negative stability a good answer never lowers it and a failure never raises it |
| Scheduler.EaseDelta | application/services/fsrs_service.py:82 | the ease-factor change of a later review is at most +0.1 for every quality up to 5 |
| Scheduler.FirstReviewed | application/services/fsrs_service.py:44-61 | the state after a first review, as a value; `Scheduler.FirstReviewValues` and `Scheduler.FirstStabilityBounds` prove what it sets |
| Scheduler.SubsequentReviewed | application/services/fsrs_service.py:63-95 | the state after a later review, as a value; `Scheduler.SubsequentStabilityRule` and the direction lemmas prove how it moves each number |
| Scheduler.Reviewed | application/services/fsrs_service.py:18-42 | `review_card` as a value, branching on the old review count; `Scheduler.ReviewIsWellScheduled` proves its bounds |
| Scheduler.FirstReview | application/services/fsrs_service.py:44-61 | updates the state object in place and returns it; its new value is `FirstReviewed` of the old value |
| Scheduler.SubsequentReview | application/services/fsrs_service.py:63-95 | updates the state object in place and returns it; its new value is `SubsequentReviewed` of the old value |
| Scheduler.ReviewCard | application/services/fsrs_service.py:18-42 | chooses the branch by the old review count and leaves the object with the value `Reviewed(old, quality, now)` |
| Scheduler.ReviewCountsOne | application/services/fsrs_service.py:53-93 | every review adds exactly one to the review count |
| Scheduler.ReviewSetsDueDate | application/services/fsrs_service.py:56-93 | a review records `now` as last review, an interval of at least one day, and a due date that many days after `now` |
| Scheduler.FirstStabilityBounds | application/services/fsrs_service.py:46-49 | first-review stability is `0.4 * (q - 2)` for quality 3..5 and 0.2 below, so it stays in `[0.2, 1.2]` for every valid quality |
| Scheduler.FirstReviewValues | application/services/fsrs_service.py:53-57 | a first review sets stability from the quality, difficulty to `(4 - q) / 4` clamped to `[0.1, 1.0]`, ease factor 2.5 and review count 1 |
| Scheduler.FirstReviewForgetsOldState | application/services/fsrs_service.py:44-61 | the result of a first review does not depend on the numbers the unreviewed state carried |
| Scheduler.ReviewIsWellScheduled | application/services/fsrs_service.py:18-105 | from any state with a non-negative count, a review of quality 0..5 leaves stability, difficulty and ease factor within their clamps, an interval of at least one day, and a due date consistent with last review and interval |
| Scheduler.SubsequentStabilityRule | application/services/fsrs_service.py:66-77 | later-review stability is the clamp of x1.5 on the second review, of x(1 + (q - 3) * 0.3) afterwards (so quality 3 keeps it), and of x0.8 after a failure |
| Scheduler.StabilityDirection | application/services/fsrs_service.py:66-77 | for in-range stability, a good answer (q >= 3) never lowers stability and a failure never raises it |
| Scheduler.EaseDeltaSigns | application/services/fsrs_service.py:82 | the ease-factor change is +0.1 for quality 5, 0 for quality 4, and negative for quality 3 and below |
| Scheduler.EaseFactorDirection | application/services/fsrs_service.py:82-83 | an in-range ease factor does not fall on quality 4 or 5 and does not rise on quality 3 or below |
| Scheduler.IntervalBounds | application/services/fsrs_service.py:97-105 | once stability is at most 365, the interval is between 1 and 730 days |
| Scheduler.MaxOneTruncateIsMaxOneFloor | application/services/fsrs_service.py:102 | `max(1, int(x))` equals `max(1, floor(x))` for every `x` |
| Scheduler.ReviewedNotDueYet | domain/entities/card.py:57-61 | just after a review the card is not due; it is due again at its due date, at least one day later |
| Scheduler.FreshGoodReview | application/services/fsrs_service.py:44-61 | quality 4 on a fresh state gives count 1, stability 0.8, difficulty 0.1, ease factor 2.5 and a due date one day later |
| Scheduler.FreshPoorReview | application/services/fsrs_service.py:44-61 | quality 1 on a fresh state gives stability 0.2, difficulty 0.75 and a one-day interval |
| Scheduler.FreshTwoGoodReviews | application/services/fsrs_service.py:63-105 | quality 4 then 5 from a fresh state moves stability from 0.8 to 1.2 with a two-day interval and count 2 |
| Cards.FSRSState.constructor | domain/entities/card.py:7-16 | a new state holds the dataclass defaults: zero stability and difficulty, ease 2.5, no review, no due date |
| Cards.FSRSState.FromValue | infrastructure/repositories/card_repository.py:25-33 | a state object built from the stored scheduling columns holds exactly those values |
| Cards.Card.FromRecord | infrastructure/repositories/card_repository.py:17-35 | `_to_entity`: a card object with its own fresh state object whose value is exactly the stored row |
| Cards.Card.Create | domain/entities/card.py:30-41 | a new card has a fresh scheduling state, no audio, and equal creation and update times |
| Cards.Card.Update | domain/entities/card.py:43-48 | replaces front and back only when given, always moves `updated_at`, and keeps the scheduling object |
| Cards.Card.MarkReviewed | domain/entities/card.py:50-55 | ignores the quality and only moves `updated_at`, exactly like an update without arguments |
| Cards.CardRecord.IsDue | domain/entities/card.py:57-61 | a card is due when it has no due date or the due date has been reached; `Cards.NewCardIsDue` and `Scheduler.ReviewedNotDueYet` prove it for new and just-reviewed cards |
| Cards.Card.IsDue | domain/entities/card.py:57-61 | `is_due` on the card object at the time `now`, defined as `Cards.CardRecord.IsDue` of its value |
| Cards.Edited | domain/entities/card.py:43-48 | `update(front, back)` as a value; `Cards.EditKeepsIdentity` proves what it keeps and changes |
| Cards.EditNothingTouchesOnlyTimestamp | domain/entities/card.py:43-48 | an update with neither argument changes nothing but `updated_at` |
| Cards.EditKeepsIdentity | domain/entities/card.py:43-48 | an update keeps id, deck, creation time, scheduling state and audio; each text is the new one when given and the old one otherwise |
| Cards.EditsCompose | domain/entities/card.py:43-48 | two updates act as one in which the later given argument wins |
| Cards.NewCardIsDue | domain/entities/card.py:57-61 | a newly created card has never been reviewed and is due at every time |
| Decks.Deck.Create | domain/entities/deck.py:17-28 | a new deck is private, with equal creation and update times |
| Decks.Deck.FromRecord | infrastructure/repositories/deck_repository.py:16-25 | `_to_entity`: a deck object whose value is exactly the stored row |
| Decks.Deck.Update | domain/entities/deck.py:30-35 | the object's new value is `Edited(old, title, description, now)` |
| Decks.Edited | domain/entities/deck.py:30-35 | `update(title, description)` as a value; `Decks.EditChangesOnlyTextAndTimestamp` proves what it keeps and changes |
| Decks.EditChangesOnlyTextAndTimestamp | domain/entities/deck.py:30-35 | an update keeps id, owner, creation time and visibility; title and description change only when given |
| Decks.DescriptionNeverReset | domain/entities/deck.py:33-34 | once a deck has a description, no update removes it (None means "keep") |
| Decks.EditsCompose | domain/entities/deck.py:30-35 | two updates act as one in which the later given argument wins |
| Sessions.Started | domain/entities/study_session.py:27-40 | a new session is unfinished and has all three counters at zero |
| Sessions.StudySession.Create | domain/entities/study_session.py:27-40 | the new object's value is `Started(...)`, and its counters balance |
| Sessions.StudySession.FromRecord | infrastructure/repositories/study_session_repository.py:16-27 | `_to_entity`: a session object whose value is exactly the stored row |
| Sessions.StudySession.Finish | domain/entities/study_session.py:42-43 | only the finish time changes, to `now` |
| Sessions.StudySession.RecordAnswer | domain/entities/study_session.py:45-50 | counts one studied card and one correct or incorrect one, keeping studied = correct + incorrect |
| Sessions.Answered | domain/entities/study_session.py:45-50 | `record_answer` as a value; `Sessions.AnswerCountsOne` and `Sessions.AnsweredAllCounts` prove how it counts |
| Sessions.Finished | domain/entities/study_session.py:42-43 | `finish` as a value; `Sessions.FinishKeepsCounters` proves that only the finish time changes |
| Sessions.AnswerCountsOne | domain/entities/study_session.py:45-50 | one answer adds one to studied and one to exactly one of correct and incorrect, and touches no other field |
| Sessions.AnsweredAllCounts | domain/entities/study_session.py:45-50 | after any series of answers, studied grows by their number, correct by the number of correct ones and incorrect by the rest; the balance is kept |
| Sessions.FinishKeepsCounters | domain/entities/study_session.py:42-43 | finishing sets the finish time and keeps every other field |
| Repositories.CardRepository.GetById | infrastructure/repositories/card_repository.py:62-67 | a missing id gives None; otherwise a fresh card object whose value is the stored row |
| Repositories.CardRepository.Create | infrastructure/repositories/card_repository.py:55-60 | stores the new row under its id and returns it; the other rows are unchanged |
| Repositories.CardRepository.Update | infrastructure/repositories/card_repository.py:93-112 | moves the entity's `updated_at`, then writes back the copied columns; the id, deck and creation time of the stored row are kept |
| Repositories.CardRepository.Collect | infrastructure/repositories/card_repository.py:69-74 | returns each stored row whose id is in the asked set, once each |
| Repositories.CardRepository.GetByDeckId | infrastructure/repositories/card_repository.py:69-74 | returns exactly the stored cards of the deck, once each |
| Repositories.CardRepository.GetDueCards | infrastructure/repositories/card_repository.py:76-91 | returns distinct stored cards of the deck that are due at `now`, sorted by due date with undated cards first. There are `min(limit, due)` of them for a positive limit, and all the due cards otherwise. No due card left out is due before a card returned |
| Repositories.CardRepository.constructor | infrastructure/repositories/card_repository.py:14-15 | a new card table is empty and valid |
| Repositories.DeckRepository.constructor | infrastructure/repositories/deck_repository.py:13-14 | a new deck table is empty |
| Repositories.DeckRepository.Create | infrastructure/repositories/deck_repository.py:38-43 | stores the new deck under its id and returns it; the other decks are unchanged |
| Repositories.SessionRepository.constructor | infrastructure/repositories/study_session_repository.py:13-14 | a new session table is empty and valid |
| Repositories.InsertByDue | infrastructure/repositories/card_repository.py:84 | inserting a card into rows sorted by due date keeps them sorted, and adds exactly that card |
| Repositories.SortByDue | infrastructure/repositories/card_repository.py:84 | `ORDER BY due_date ASC NULLS FIRST`: the result is sorted, undated cards first, and is a reordering of the input |
| Repositories.PrefixEarliest | infrastructure/repositories/card_repository.py:84-87 | the first `n` rows of a sorted listing stay sorted, and no row left out is due before a row kept |
| Repositories.SortedDueRows | infrastructure/repositories/card_repository.py:78-84 | sorting the due cards lists the same cards, earliest first |
| Repositories.DuePrefixRows | infrastructure/repositories/card_repository.py:84-87 | the first `n` sorted due cards are distinct due cards of the deck, and no due card left out is due before one of them |
| Repositories.UndatedFirst | infrastructure/repositories/card_repository.py:84 | while a card without a due date is left out, every card kept is undated too |
| Repositories.DueIds | infrastructure/repositories/card_repository.py:78-83 | the ids of the deck's cards whose due date is unset or reached; a subset of the deck's ids |
| Repositories.Persisted | infrastructure/repositories/card_repository.py:95-109 | the written row keeps the stored id, deck and creation time, takes front, back, update time, scheduling state and audio from the entity, and is the entity itself when those three agree |
| Repositories.SessionPersisted | infrastructure/repositories/study_session_repository.py:66-77 | the written row keeps the stored id, user, deck, mode and start time, takes the finish time and the studied, correct and incorrect counters from the entity, and is the entity itself when those five agree |
| Repositories.DeckRepository.GetById | infrastructure/repositories/deck_repository.py:45-50 | a missing id gives None; otherwise a fresh deck object whose value is the stored row |
| Repositories.SessionRepository.GetById | infrastructure/repositories/study_session_repository.py:49-54 | a missing id gives None; otherwise a fresh session object holding the stored row |
| Repositories.SessionRepository.Create | infrastructure/repositories/study_session_repository.py:42-47 | stores the new session under its id; other sessions are unchanged |
| Repositories.SessionRepository.Update | infrastructure/repositories/study_session_repository.py:66-77 | stores `SessionPersisted` of the stored row and the entity: the finish time and the three counters come from the entity; id, user, deck, mode and start time stay as stored |
| Repositories.WithoutIdIds | application/use_cases/study_use_cases.py:88 | filtering out one id removes exactly that id from the listed ids |
| Repositories.WithoutId | application/use_cases/study_use_cases.py:88 | the filtered list keeps only rows of the input, and none of them has the removed id |
| Repositories.DistinctIdsCount | infrastructure/repositories/card_repository.py:69-74 | rows with pairwise different ids are as many as their ids |
| CardUseCases.CreateCard | application/use_cases/card_use_cases.py:15-22 | a missing deck gives `DeckNotFound` and changes nothing; otherwise stores and returns one new, never-reviewed card of the deck; every stored card stays sound |
| CardUseCases.UpdateCard | application/use_cases/card_use_cases.py:45-53 | a missing card gives `CardNotFound` and changes nothing; otherwise stores and returns the edited card; every stored card stays sound |
| CardUseCases.ReviewCard | application/use_cases/card_use_cases.py:77-102 | a quality outside 0..5 gives `InvalidQuality` before any lookup; a missing card gives `CardNotFound`; in both cases nothing changes. Otherwise the stored card gets the scheduler's new state and `updated_at = now`; every stored card stays sound |
| CardUseCases.AfterReview | application/use_cases/card_use_cases.py:99-100 | the stored card after a review: the scheduler's new state, and `updated_at` moved to `now`; `CardUseCases.ReviewKeepsCard` proves what it keeps |
| CardUseCases.ReviewKeepsCard | application/use_cases/card_use_cases.py:99-102 | a review keeps the card's text, identity and audio, counts one more review, and leaves the card not due until its due date |
| CardUseCases.ReviewKeepsSound | application/use_cases/card_use_cases.py:91-102 | a valid review of a sound card gives a well-scheduled card |
| CardUseCases.EditKeepsSound | application/use_cases/card_use_cases.py:52 | editing the text keeps a card sound |
| StudyUseCases.StartStudySession | application/use_cases/study_use_cases.py:17-19 | stores and returns a new unfinished session whose counters are zero |
| StudyUseCases.FinishStudySession | application/use_cases/study_use_cases.py:26-32 | an unknown session gives `SessionNotFound` and changes nothing; otherwise the stored session is finished at `now`, with every other field kept |
| StudyUseCases.Swap | application/use_cases/study_use_cases.py:89 | exchanging two entries keeps the same elements and touches no other position |
| StudyUseCases.Shuffle | application/use_cases/study_use_cases.py:89 | `random.shuffle` shuffles the list; the result has the same length and the same elements |
| Repositories.PermutationKeepsListing | application/use_cases/study_use_cases.py:159 | reordering stored rows with distinct ids keeps them stored and distinct, with the same ids |
| StudyUseCases.StudyFlashcards | application/use_cases/study_use_cases.py:46-58 | a missing deck gives `DeckNotFound`. Otherwise the result holds distinct stored cards of the deck, at most `limit` of them for a non-negative limit. If any card is due, they are all due, sorted by due date, the earliest ones, and there are `cards[:limit]` many of them. If none is due, they are the deck's cards, cut to `[:limit]` |
| StudyUseCases.DueCardsChoice | application/use_cases/study_use_cases.py:53-58 | cutting the sorted due cards the query returns to `[:limit]` is a valid flashcard choice, still earliest first |
| StudyUseCases.DeckCardsChoice | application/use_cases/study_use_cases.py:54-58 | when nothing is due, cutting the deck's cards to `[:limit]` is a valid flashcard choice |
| StudyUseCases.StudyMultipleChoice | application/use_cases/study_use_cases.py:72-96 | a missing card gives `CardNotFound`; otherwise it returns the stored card and between 1 and 4 options. The options are a reordering of the right back plus the backs of `min(3, other cards of the deck)` distinct other cards of the deck |
| StudyUseCases.Backs | application/use_cases/study_use_cases.py:92 | `[c.back for c in cs]`: one back per card, in the cards' order |
| StudyUseCases.ShuffledDistractors | application/use_cases/study_use_cases.py:85-92 | filtering out the asked card, reordering, and keeping three gives distinct stored cards of the deck, none of them the asked card, `min(3, others)` many |
| StudyUseCases.DistractorsFromShuffled | application/use_cases/study_use_cases.py:89-92 | keeping three of any reordering of the other cards gives a valid set of distractors |
| StudyUseCases.OtherCardsListing | application/use_cases/study_use_cases.py:85-88 | the deck's cards except the asked one are distinct stored cards of the deck, as many as the deck's other ids |
| StudyUseCases.ListedInDeck | application/use_cases/study_use_cases.py:85 | a listing of some of the deck's ids holds only cards of the deck |
| StudyUseCases.PermutationKeepsDeck | application/use_cases/study_use_cases.py:89 | reordering keeps every card in its deck |
| StudyUseCases.PrefixKeepsListing | application/use_cases/study_use_cases.py:92 | a prefix of distinct stored cards of the deck is again one |
| StudyUseCases.PermutationKeepsAvoiding | application/use_cases/study_use_cases.py:88-89 | reordering keeps the asked card out of the distractors |
| StudyUseCases.Grade | application/use_cases/study_use_cases.py:120-135 | the answer is correct exactly when the stripped, lower-cased texts are equal; the quality is then 4; it is 2 exactly when one normalized text occurs in the other, and 0 otherwise |
| StudyUseCases.Normalize | application/use_cases/study_use_cases.py:120-121 | `s.strip().lower()` is exactly as long as the stripped text, so never longer than `s` |
| StudyUseCases.NormalizeIdempotent | application/use_cases/study_use_cases.py:120-121 | normalizing an already normalized text changes nothing |
| StudyUseCases.GradeOwnAnswer | application/use_cases/study_use_cases.py:120-127 | the stored back, given as the answer, is graded correct with quality 4 |
| StudyUseCases.BlankAnswerScoresPartial | application/use_cases/study_use_cases.py:130-131 | a blank answer to a non-blank back gets partial credit (the empty string occurs in every string) |
| StudyUseCases.PaddingDoesNotMatter | application/use_cases/study_use_cases.py:120-121 | whitespace around the answer never changes its grade |
| StudyUseCases.PartialMeansLengthsDiffer | application/use_cases/study_use_cases.py:126-131 | a partial grade means the two normalized texts have different lengths, one strictly inside the other |
| StudyUseCases.CheckAnswer | application/use_cases/study_use_cases.py:108-135 | a missing card gives `CardNotFound`; otherwise the grade of the answer against the stored back |
| StudyUseCases.ShuffledMatchChoice | application/use_cases/study_use_cases.py:158-161 | reordering the deck's cards and keeping `[:limit]` gives distinct stored cards of the deck, `[:limit]` many, and all of them when the limit covers the deck |
| StudyUseCases.StudyMatch | application/use_cases/study_use_cases.py:147-162 | a missing deck gives `DeckNotFound`; otherwise it returns the front/back pairs of a valid match choice, `[:limit]` of the deck's size many |
| StudyUseCases.FrontBacks | application/use_cases/study_use_cases.py:161 | `[(c.front, c.back) for c in cs]`: one pair per card, in the cards' order |
| Import.NonBlankLines | infrastructure/services/import_service.py:62 | the kept lines are no more than the input, and every one is non-empty and already stripped |
| Import.PairUp | infrastructure/services/import_service.py:64-72 | reading lines two by two gives half as many pairs, rounded down |
| Import.FlattenPairUp | infrastructure/services/import_service.py:64-72 | pairing loses nothing but an odd last line: flattening the pairs gives back the lines without it |
| Import.PairUpFlatten | infrastructure/services/import_service.py:64-72 | flattening a list of pairs and pairing again gives the pairs back |
| Import.PairUpSnoc | infrastructure/services/import_service.py:28-32 | one more line waits for its partner after an even count and completes a pair after an odd count |
| Import.PendingStep | infrastructure/services/import_service.py:28-32 | the pending front alternates: a line becomes the pending front, or completes a card with it and clears it |
| Import.Pending | infrastructure/services/import_service.py:19-32 | `current_front` after reading the lines: set exactly when an odd number has been read, to the last one; the lines are twice the pairs plus that one |
| Import.ImportedPairsAreClean | infrastructure/services/import_service.py:21-32 | imported fronts and backs are non-empty and stripped, and there are half as many cards as non-blank lines |
| Import.NonBlankLinesSnoc | infrastructure/services/import_service.py:22-24 | a blank line is skipped and a non-blank one appends its stripped text |
| Import.ImportFromWord | infrastructure/services/import_service.py:13-34 | the loop's cards are exactly the non-blank stripped paragraphs paired up in order |
| Import.PairLines | infrastructure/services/import_service.py:64-72 | the loop over clean lines pairs them up in order |
| Import.ImportFromImage | infrastructure/services/import_service.py:52-74 | the cards are the non-blank stripped lines of the text, split at newlines and paired up |
| Import.RowCard | infrastructure/services/import_service.py:44-48 | a row gives a card exactly when it has two present, non-blank first cells; the card is their stripped texts |
| Import.Truthy | infrastructure/services/import_service.py:44 | Python's truth of a cell: present and not the empty string; `Import.RowCard` shows that a truthy cell that is all whitespace still gives no card |
| Import.RowCards | infrastructure/services/import_service.py:43-48 | the cards of a run of rows, in row order, at most one per row |
| Import.SheetCards | infrastructure/services/import_service.py:43 | the cards of a sheet are those of every row but the first; `Import.HeaderIgnored` proves the header never matters |
| Import.RowCardsAppend | infrastructure/services/import_service.py:43-48 | rows are read independently: the cards of two runs of rows are those of each |
| Import.RowCardsAreClean | infrastructure/services/import_service.py:43-48 | every spreadsheet card has a non-empty, stripped front and back |
| Import.HeaderIgnored | infrastructure/services/import_service.py:43 | the header row never affects the result, and a sheet yields at most one card per row below it |
| Import.ImportFromExcel | infrastructure/services/import_service.py:36-50 | the loop from the second row on gives exactly the cards of the rows below the header |
| Text.Strip | application/use_cases/study_use_cases.py:120-121 | `strip()` returns a substring surrounded only by whitespace, with no whitespace at either end (or the empty string) |
| Text.StripUnique | application/use_cases/study_use_cases.py:120-121 | any split of a string into whitespace, a core without whitespace at its ends, and whitespace has `strip()` equal to that core |
| Text.StripIdempotent | infrastructure/services/import_service.py:22 | stripping twice is stripping once |
| Text.StripIgnoresPadding | application/use_cases/study_use_cases.py:120 | whitespace added around a string does not change what `strip()` returns |
| Text.StripEmptyIffBlank | infrastructure/services/import_service.py:44-47 | a string strips to nothing exactly when it is all whitespace |
| Text.LowerChar | application/use_cases/study_use_cases.py:120-121 | `lower()` on one character changes exactly the upper-case letters and never leaves an upper-case one |
| Text.Lower | application/use_cases/study_use_cases.py:120-121 | `lower()` keeps the length, leaves no upper-case letter, and keeps every character that is not upper case |
| Text.LowerIdempotent | application/use_cases/study_use_cases.py:120-121 | lower-casing twice is lower-casing once |
| Text.Contains | application/use_cases/study_use_cases.py:130 | Python's `needle in hay` on strings: the needle occurs at some offset; `Text.EmptyContained`, `Text.ContainsSelf` and `Text.ContainsNoLonger` prove its laws |
| Text.ContainsNoLonger | application/use_cases/study_use_cases.py:130 | a string that occurs in another is no longer, and one as long is the same string |
| Text.EmptyContained | application/use_cases/study_use_cases.py:130 | the empty string occurs in every string |
| Text.ContainsSelf | application/use_cases/study_use_cases.py:130 | every string occurs in itself |
| Text.Split | infrastructure/services/import_service.py:62 | `split(sep)` gives at least one piece, and none of the pieces contains the separator |
| Text.JoinSplit | infrastructure/services/import_service.py:62 | joining the pieces of a split with the separator gives back the text |
| Text.SplitJoin | infrastructure/services/import_service.py:62 | splitting a join of separator-free pieces gives back the pieces |
| Text.SplitWithoutSep | infrastructure/services/import_service.py:62 | a text without the separator splits into itself alone |
| Text.SplitPrefixed | infrastructure/services/import_service.py:62 | a separator-free piece followed by the separator splits off as one piece |
| Common.SliceLength | application/use_cases/study_use_cases.py:58 | the length of `s[:stop]`: `min(stop, n)` for a non-negative stop, and `max(0, n + stop)` for a negative one |
| Common.SliceTo | application/use_cases/study_use_cases.py:58 | `s[:stop]` is the prefix of `s` of that length |

## Left out

- HTTP routers, authentication, request validation and schemas are not part of
  this model. In particular, the routers' bounds on `limit` (at least 1) are
  not assumed, so the model handles every integer limit.
- SQLAlchemy sessions, commits, refreshes, transactions and `async` are not
  modelled. Each repository call is one atomic step on its table.
- The cache, text-to-speech, users, the deck use cases, and the card use cases
  that only forward one repository call are not part of this model. Those use
  cases are get card, get deck cards, delete card and get due cards.
  `CardRepository.delete` and `bulk_create` are not part of this model either.
- Text extraction is left out: reading `.docx` paragraphs, opening workbooks
  and running Tesseract OCR. The import functions start from the extracted
  paragraph texts, OCR text or cell values.
- Import.RowCard: a cell is `None` or a string. Numeric and date cells, which
  `str(...)` would turn into text, are not modelled.
- SQL leaves cards due at the same instant in no particular order.
  `Repositories.SortByDue` breaks such ties by table order, but no contract
  depends on the tie-break. `get_by_deck_id` has no `ORDER BY`, so the model
  returns the deck's cards in table order, and no contract states that order.
- Repositories.CardRepository.GetDueCards: `if limit:` sends no LIMIT for a
  zero limit. A negative limit is taken as "no limit", as SQLite treats it.
  Other database engines are not modelled.
- `FSRSService.forgetting_curve` is set but never read, so it is not modelled.
- Python floats are modelled as exact reals. IEEE rounding, for example of
  `0.4 * 3`, is not captured.
- Text.Lower maps only ASCII and the basic Cyrillic letters, U+0400 to U+042F.
  Other characters are kept as they are; full Unicode case mapping is not
  modelled.
- Text.Strip uses Python's `str.isspace` set. Text.Split takes one separator
  character, the only form the importer uses.
- StudyUseCases.Shuffle follows CPython's loop. `draws` stands for the numbers
  the generator returns, each reduced modulo `i + 1`, and a stream that runs
  out reads as 0. The model proves that the result is a reordering. It does not
  prove that every reordering is reachable, or that reorderings are equally
  likely.
- Each operation reads the clock once, as `now`. In the source, the several
  `utcnow()` calls of one request can return slightly different times. This
  matters, for example, between the review and the two `update()` calls that
  follow it.
