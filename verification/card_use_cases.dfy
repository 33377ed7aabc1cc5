/** The card use cases (application/use_cases/card_use_cases.py): create,
    edit and review a card through the card table. The clock reads of one
    call are taken as the single instant `now`. */
module CardUseCases {
  import opened Common
  import opened Cards
  import Scheduler
  import opened Repositories

  /** The stored row after a successful review at `now`: the scheduler's new
      state, and `updated_at` moved by `card.update()`. */
  function AfterReview(c: CardRecord, quality: int, now: Time): CardRecord {
    c.(fsrs := Scheduler.Reviewed(c.fsrs, quality, now), updatedAt := now)
  }

  /** A review keeps the card's text, identity and audio, counts one more
      review, and leaves the card not due until a day or more has passed. */
  lemma ReviewKeepsCard(c: CardRecord, quality: int, now: Time)
    ensures var r := AfterReview(c, quality, now);
      && r.id == c.id && r.deckId == c.deckId && r.front == c.front && r.back == c.back
      && r.createdAt == c.createdAt && r.audioUrl == c.audioUrl && r.updatedAt == now
      && r.fsrs.reviewCount == c.fsrs.reviewCount + 1
      && r.fsrs.lastReview == Some(now)
      && !r.IsDue(now)
      && r.IsDue(now + r.fsrs.interval * SecondsPerDay)
  {
    Scheduler.ReviewCountsOne(c.fsrs, quality, now);
    Scheduler.ReviewedNotDueYet(c, quality, now);
  }

  /** A stored card has either never been reviewed, or carries a consistent
      schedule with every value in its range. */
  predicate Sound(c: CardRecord) {
    c.fsrs == FreshState || Scheduler.WellScheduled(c.fsrs)
  }

  ghost predicate AllSound(cards: map<Id, CardRecord>) {
    forall id :: id in cards ==> Sound(cards[id])
  }

  /** A valid review of a sound card gives a well-scheduled card. */
  lemma ReviewKeepsSound(c: CardRecord, quality: int, now: Time)
    requires 0 <= quality <= 5
    requires Sound(c)
    ensures Scheduler.WellScheduled(AfterReview(c, quality, now).fsrs)
    ensures Sound(AfterReview(c, quality, now))
  {
    Scheduler.ReviewIsWellScheduled(c.fsrs, quality, now);
  }

  /** Editing the text never touches the schedule, so soundness is kept. */
  lemma EditKeepsSound(c: CardRecord, front: Option<string>, back: Option<string>, now: Time)
    requires Sound(c)
    ensures Sound(Cards.Edited(c, front, back, now))
  {
    EditKeepsIdentity(c, front, back, now);
  }

  /** `CreateCardUseCase.execute`: fails when the deck is missing, otherwise
      stores one new, never-reviewed card; `newId` stands for the `uuid4()`
      drawn by `Card.create`. */
  method CreateCard(decks: DeckRepository, repo: CardRepository, deckId: Id,
                    front: string, back: string, newId: Id, now: Time) returns (r: Result<CardRecord>)
    requires repo.Valid()
    requires newId !in repo.cards
    modifies repo
    ensures repo.Valid()
    ensures deckId !in decks.decks ==> r == Err(DeckNotFound) && repo.cards == old(repo.cards)
    ensures deckId in decks.decks ==>
      && r == Ok(CardRecord(newId, deckId, front, back, now, now, FreshState, None))
      && repo.cards == old(repo.cards)[newId := r.value]
    ensures AllSound(old(repo.cards)) ==> AllSound(repo.cards)
  {
    var deck := decks.GetById(deckId);
    if deck.None? {
      return Err(DeckNotFound);
    }
    var card := new Card.Create(newId, deckId, front, back, now);
    var row := repo.Create(card.Value());
    r := Ok(row);
  }

  /** `UpdateCardUseCase.execute`: fails for a missing card, otherwise stores
      the card with `Card.update` applied; the repository's second `update()`
      at the same instant changes nothing more. */
  method UpdateCard(repo: CardRepository, cardId: Id, front: Option<string>, back: Option<string>,
                    now: Time) returns (r: Result<CardRecord>)
    requires repo.Valid()
    modifies repo
    ensures repo.Valid()
    ensures cardId !in old(repo.cards) ==> r == Err(CardNotFound) && repo.cards == old(repo.cards)
    ensures cardId in old(repo.cards) ==>
      && r == Ok(Cards.Edited(old(repo.cards)[cardId], front, back, now))
      && repo.cards == old(repo.cards)[cardId := r.value]
    ensures AllSound(old(repo.cards)) ==> AllSound(repo.cards)
  {
    var found := repo.GetById(cardId);
    if found.None? {
      return Err(CardNotFound);
    }
    var card := found.value;
    card.Update(front, back, now);
    var row := repo.Update(card, now);
    r := Ok(row);
    if Sound(old(repo.cards)[cardId]) {
      EditKeepsSound(old(repo.cards)[cardId], front, back, now);
    }
  }

  /** `ReviewCardUseCase.execute`: rejects a quality outside 0..5 before
      reading anything, fails for a missing card, and otherwise stores the
      card with the scheduler's new state and a touched `updated_at`, leaving
      every other card as it was. */
  method ReviewCard(repo: CardRepository, cardId: Id, quality: int, now: Time) returns (r: Result<CardRecord>)
    requires repo.Valid()
    modifies repo
    ensures repo.Valid()
    ensures (quality < 0 || quality > 5) ==> r == Err(InvalidQuality) && repo.cards == old(repo.cards)
    ensures 0 <= quality <= 5 && cardId !in old(repo.cards) ==>
      r == Err(CardNotFound) && repo.cards == old(repo.cards)
    ensures 0 <= quality <= 5 && cardId in old(repo.cards) ==>
      && r == Ok(AfterReview(old(repo.cards)[cardId], quality, now))
      && repo.cards == old(repo.cards)[cardId := r.value]
    ensures AllSound(old(repo.cards)) ==> AllSound(repo.cards)
  {
    if quality < 0 || quality > 5 {
      return Err(InvalidQuality);
    }
    var found := repo.GetById(cardId);
    if found.None? {
      return Err(CardNotFound);
    }
    var card := found.value;
    var state := Scheduler.ReviewCard(card.fsrsState, quality, now);
    card.fsrsState := state;
    card.Update(None, None, now);
    var row := repo.Update(card, now);
    r := Ok(row);
    if Sound(old(repo.cards)[cardId]) {
      ReviewKeepsSound(old(repo.cards)[cardId], quality, now);
    }
  }
}
