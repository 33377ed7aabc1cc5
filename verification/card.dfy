/** The card entity and its spaced-repetition state (domain/entities/card.py). */
module Cards {
  import opened Common

  /** The fields of an `FSRSState`, as a value. */
  datatype ReviewState = ReviewState(
    stability: real,
    difficulty: real,
    lastReview: Option<Time>,
    reviewCount: int,
    easeFactor: real,
    interval: int,           // days until the next review
    dueDate: Option<Time>)

  /** The dataclass defaults of `FSRSState()`: a card never reviewed. */
  const FreshState := ReviewState(0.0, 0.0, None, 0, 2.5, 0, None)

  /** The fields of a `Card`, as a value (one row of the card table). */
  datatype CardRecord = CardRecord(
    id: Id,
    deckId: Id,
    front: string,
    back: string,
    createdAt: Time,
    updatedAt: Time,
    fsrs: ReviewState,
    audioUrl: Option<string>)
  {
    /** `Card.is_due`: never scheduled, or the due date has been reached. */
    predicate IsDue(now: Time) {
      fsrs.dueDate.None? || now >= fsrs.dueDate.value
    }
  }

  /** `Card.update(front, back)`: an argument left as None keeps the old text;
      every call moves `updated_at` to now. */
  function Edited(c: CardRecord, front: Option<string>, back: Option<string>, now: Time): CardRecord {
    c.(front := front.OrElse(c.front), back := back.OrElse(c.back), updatedAt := now)
  }

  /** `update()` with no arguments only touches the timestamp. */
  lemma EditNothingTouchesOnlyTimestamp(c: CardRecord, now: Time)
    ensures Edited(c, None, None, now) == c.(updatedAt := now)
  {
  }

  /** What `update` keeps: identity, deck, creation time, scheduling state and audio. */
  lemma EditKeepsIdentity(c: CardRecord, front: Option<string>, back: Option<string>, now: Time)
    ensures var e := Edited(c, front, back, now);
      e.id == c.id && e.deckId == c.deckId && e.createdAt == c.createdAt
      && e.fsrs == c.fsrs && e.audioUrl == c.audioUrl && e.updatedAt == now
    ensures Edited(c, front, back, now).front == (if front.Some? then front.value else c.front)
    ensures Edited(c, front, back, now).back == (if back.Some? then back.value else c.back)
  {
  }

  /** Two updates in a row act like one, where the later non-None argument wins. */
  lemma EditsCompose(c: CardRecord, f1: Option<string>, b1: Option<string>, t1: Time,
                     f2: Option<string>, b2: Option<string>, t2: Time)
    ensures Edited(Edited(c, f1, b1, t1), f2, b2, t2)
         == Edited(c, if f2.Some? then f2 else f1, if b2.Some? then b2 else b1, t2)
  {
  }

  /** A mutable `FSRSState` dataclass instance. */
  class FSRSState {
    var stability: real
    var difficulty: real
    var lastReview: Option<Time>
    var reviewCount: int
    var easeFactor: real
    var interval: int
    var dueDate: Option<Time>

    function Value(): ReviewState
      reads this
    {
      ReviewState(stability, difficulty, lastReview, reviewCount, easeFactor, interval, dueDate)
    }

    /** `FSRSState()` with its defaults. */
    constructor ()
      ensures Value() == FreshState
    {
      stability, difficulty, lastReview, reviewCount := 0.0, 0.0, None, 0;
      easeFactor, interval, dueDate := 2.5, 0, None;
    }

    /** `FSRSState(stability=..., ...)` from stored columns. */
    constructor FromValue(v: ReviewState)
      ensures Value() == v
    {
      stability, difficulty, lastReview, reviewCount := v.stability, v.difficulty, v.lastReview, v.reviewCount;
      easeFactor, interval, dueDate := v.easeFactor, v.interval, v.dueDate;
    }
  }

  /** A mutable `Card` dataclass instance; it owns one `FSRSState` object. */
  class Card {
    var id: Id
    var deckId: Id
    var front: string
    var back: string
    var createdAt: Time
    var updatedAt: Time
    var fsrsState: FSRSState
    var audioUrl: Option<string>

    function Value(): CardRecord
      reads this, fsrsState
    {
      CardRecord(id, deckId, front, back, createdAt, updatedAt, fsrsState.Value(), audioUrl)
    }

    /** `Card.create`: a new card with a fresh scheduling state, created and
        updated at the same instant; `id` stands for the `uuid4()` it draws. */
    constructor Create(id: Id, deckId: Id, front: string, back: string, now: Time)
      ensures fresh(fsrsState)
      ensures Value() == CardRecord(id, deckId, front, back, now, now, FreshState, None)
    {
      this.id, this.deckId, this.front, this.back := id, deckId, front, back;
      createdAt, updatedAt := now, now;
      fsrsState := new FSRSState();
      audioUrl := None;
    }

    /** A card object rebuilt from a stored row. */
    constructor FromRecord(r: CardRecord)
      ensures fresh(fsrsState)
      ensures Value() == r
    {
      id, deckId, front, back := r.id, r.deckId, r.front, r.back;
      createdAt, updatedAt := r.createdAt, r.updatedAt;
      fsrsState := new FSRSState.FromValue(r.fsrs);
      audioUrl := r.audioUrl;
    }

    /** `Card.update`: replaces `front`/`back` only when given. */
    method Update(front: Option<string>, back: Option<string>, now: Time)
      modifies this
      ensures fsrsState == old(fsrsState)
      ensures Value() == Edited(old(Value()), front, back, now)
    {
      if front.Some? {
        this.front := front.value;
      }
      if back.Some? {
        this.back := back.value;
      }
      updatedAt := now;
    }

    /** `Card.mark_reviewed`: the quality is ignored; only `updated_at` moves,
        exactly as an `update()` without arguments. */
    method MarkReviewed(quality: int, now: Time)
      modifies this
      ensures fsrsState == old(fsrsState)
      ensures Value() == Edited(old(Value()), None, None, now)
    {
      updatedAt := now;
    }

    /** `Card.is_due` at the injected time `now`. */
    predicate IsDue(now: Time)
      reads this, fsrsState
    {
      Value().IsDue(now)
    }
  }

  /** A card created at `now` is due at once, and has never been reviewed. */
  lemma NewCardIsDue(id: Id, deckId: Id, front: string, back: string, now: Time, later: Time)
    ensures CardRecord(id, deckId, front, back, now, now, FreshState, None).IsDue(later)
    ensures FreshState.reviewCount == 0
  {
  }
}
