/** The deck entity (domain/entities/deck.py). */
module Decks {
  import opened Common

  /** The fields of a `Deck`, as a value (one row of the deck table). */
  datatype DeckRecord = DeckRecord(
    id: Id,
    userId: Id,
    title: string,
    description: Option<string>,
    createdAt: Time,
    updatedAt: Time,
    isPublic: bool)

  /** `Deck.update(title, description)` as a value: None keeps the old field. */
  function Edited(d: DeckRecord, title: Option<string>, description: Option<string>, now: Time): DeckRecord {
    d.(title := title.OrElse(d.title),
       description := if description.Some? then description else d.description,
       updatedAt := now)
  }

  /** What `update` changes and what it keeps. */
  lemma EditChangesOnlyTextAndTimestamp(d: DeckRecord, title: Option<string>, description: Option<string>, now: Time)
    ensures var e := Edited(d, title, description, now);
      && e.id == d.id && e.userId == d.userId && e.createdAt == d.createdAt
      && e.isPublic == d.isPublic && e.updatedAt == now
      && e.title == (if title.Some? then title.value else d.title)
      && e.description == (if description.Some? then description else d.description)
  {
  }

  /** Once a deck has a description, no update can take it away. */
  lemma DescriptionNeverReset(d: DeckRecord, title: Option<string>, description: Option<string>, now: Time)
    requires d.description.Some?
    ensures Edited(d, title, description, now).description.Some?
  {
  }

  /** Two updates act like one, the later non-None argument winning. */
  lemma EditsCompose(d: DeckRecord, t1: Option<string>, d1: Option<string>, n1: Time,
                     t2: Option<string>, d2: Option<string>, n2: Time)
    ensures Edited(Edited(d, t1, d1, n1), t2, d2, n2)
         == Edited(d, if t2.Some? then t2 else t1, if d2.Some? then d2 else d1, n2)
  {
  }

  /** A mutable `Deck` dataclass instance. */
  class Deck {
    var id: Id
    var userId: Id
    var title: string
    var description: Option<string>
    var createdAt: Time
    var updatedAt: Time
    var isPublic: bool

    function Value(): DeckRecord
      reads this
    {
      DeckRecord(id, userId, title, description, createdAt, updatedAt, isPublic)
    }

    /** `Deck.create`: private, created and updated at the same instant;
        `id` stands for the `uuid4()` it draws, the description defaults to None. */
    constructor Create(id: Id, userId: Id, title: string, description: Option<string>, now: Time)
      ensures Value() == DeckRecord(id, userId, title, description, now, now, false)
    {
      this.id, this.userId, this.title, this.description := id, userId, title, description;
      createdAt, updatedAt, isPublic := now, now, false;
    }

    /** A deck object rebuilt from a stored row. */
    constructor FromRecord(r: DeckRecord)
      ensures Value() == r
    {
      id, userId, title, description := r.id, r.userId, r.title, r.description;
      createdAt, updatedAt, isPublic := r.createdAt, r.updatedAt, r.isPublic;
    }

    /** `Deck.update`. */
    method Update(title: Option<string>, description: Option<string>, now: Time)
      modifies this
      ensures Value() == Edited(old(Value()), title, description, now)
    {
      if title.Some? {
        this.title := title.value;
      }
      if description.Some? {
        this.description := description;
      }
      updatedAt := now;
    }
  }
}
