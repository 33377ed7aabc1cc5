/** The study-session entity (domain/entities/study_session.py): a start time,
    an optional finish time and three answer counters. */
module Sessions {
  import opened Common

  datatype StudyMode = Flashcards | MultipleChoice | Write | Match

  /** The fields of a `StudySession`, as a value (one row of the session table). */
  datatype SessionRecord = SessionRecord(
    id: Id,
    userId: Id,
    deckId: Id,
    mode: StudyMode,
    startedAt: Time,
    finishedAt: Option<Time>,
    cardsStudied: int,
    cardsCorrect: int,
    cardsIncorrect: int)
  {
    /** Every studied card was answered either correctly or incorrectly. */
    predicate Balanced() {
      cardsStudied == cardsCorrect + cardsIncorrect
    }
  }

  /** `StudySession.create` as a value; `id` stands for the `uuid4()` it draws. */
  function Started(id: Id, userId: Id, deckId: Id, mode: StudyMode, now: Time): (s: SessionRecord)
    ensures s.finishedAt.None? && s.Balanced()
    ensures s.cardsStudied == 0 && s.cardsCorrect == 0 && s.cardsIncorrect == 0
  {
    SessionRecord(id, userId, deckId, mode, now, None, 0, 0, 0)
  }

  /** `record_answer` as a value. */
  function Answered(s: SessionRecord, isCorrect: bool): SessionRecord {
    if isCorrect then s.(cardsStudied := s.cardsStudied + 1, cardsCorrect := s.cardsCorrect + 1)
    else s.(cardsStudied := s.cardsStudied + 1, cardsIncorrect := s.cardsIncorrect + 1)
  }

  /** `finish` as a value. */
  function Finished(s: SessionRecord, now: Time): SessionRecord {
    s.(finishedAt := Some(now))
  }

  /** The session after a series of answers, in order. */
  function AnsweredAll(s: SessionRecord, answers: seq<bool>): SessionRecord
    decreases |answers|
  {
    if answers == [] then s else AnsweredAll(Answered(s, answers[0]), answers[1..])
  }

  /** Number of `true` entries. */
  function CountTrue(answers: seq<bool>): (n: nat)
    ensures n <= |answers|
  {
    if answers == [] then 0 else (if answers[0] then 1 else 0) + CountTrue(answers[1..])
  }

  /** One answer adds one studied card and exactly one of correct/incorrect. */
  lemma AnswerCountsOne(s: SessionRecord, isCorrect: bool)
    ensures var t := Answered(s, isCorrect);
      && t.cardsStudied == s.cardsStudied + 1
      && t.cardsCorrect == s.cardsCorrect + (if isCorrect then 1 else 0)
      && t.cardsIncorrect == s.cardsIncorrect + (if isCorrect then 0 else 1)
      && t.(cardsStudied := s.cardsStudied, cardsCorrect := s.cardsCorrect,
            cardsIncorrect := s.cardsIncorrect) == s
    ensures s.Balanced() ==> Answered(s, isCorrect).Balanced()
  {
  }

  /** After any series of answers the counters tally them: studied is the
      number of answers, correct the number of `true`s, and the balance holds. */
  lemma {:induction false} AnsweredAllCounts(s: SessionRecord, answers: seq<bool>)
    ensures var t := AnsweredAll(s, answers);
      && t.cardsStudied == s.cardsStudied + |answers|
      && t.cardsCorrect == s.cardsCorrect + CountTrue(answers)
      && t.cardsIncorrect == s.cardsIncorrect + (|answers| - CountTrue(answers))
      && (s.Balanced() ==> t.Balanced())
      && t.id == s.id && t.mode == s.mode && t.finishedAt == s.finishedAt
    decreases |answers|
  {
    if answers != [] {
      AnsweredAllCounts(Answered(s, answers[0]), answers[1..]);
    }
  }

  /** `finish` records the time and keeps ids, mode and counters. */
  lemma FinishKeepsCounters(s: SessionRecord, now: Time)
    ensures var t := Finished(s, now);
      t.finishedAt == Some(now) && t.(finishedAt := s.finishedAt) == s
  {
  }

  /** A mutable `StudySession` dataclass instance. */
  class StudySession {
    var id: Id
    var userId: Id
    var deckId: Id
    var mode: StudyMode
    var startedAt: Time
    var finishedAt: Option<Time>
    var cardsStudied: int
    var cardsCorrect: int
    var cardsIncorrect: int

    function Value(): SessionRecord
      reads this
    {
      SessionRecord(id, userId, deckId, mode, startedAt, finishedAt, cardsStudied, cardsCorrect, cardsIncorrect)
    }

    /** `StudySession.create`. */
    constructor Create(id: Id, userId: Id, deckId: Id, mode: StudyMode, now: Time)
      ensures Value() == Started(id, userId, deckId, mode, now)
      ensures Value().Balanced()
    {
      this.id, this.userId, this.deckId, this.mode := id, userId, deckId, mode;
      startedAt, finishedAt := now, None;
      cardsStudied, cardsCorrect, cardsIncorrect := 0, 0, 0;
    }

    /** A session object rebuilt from a stored row. */
    constructor FromRecord(r: SessionRecord)
      ensures Value() == r
    {
      id, userId, deckId, mode := r.id, r.userId, r.deckId, r.mode;
      startedAt, finishedAt := r.startedAt, r.finishedAt;
      cardsStudied, cardsCorrect, cardsIncorrect := r.cardsStudied, r.cardsCorrect, r.cardsIncorrect;
    }

    /** `finish`. */
    method Finish(now: Time)
      modifies this
      ensures Value() == Finished(old(Value()), now)
    {
      finishedAt := Some(now);
    }

    /** `record_answer`: keeps the balance between the three counters. */
    method RecordAnswer(isCorrect: bool)
      modifies this
      ensures Value() == Answered(old(Value()), isCorrect)
      ensures old(Value().Balanced()) ==> Value().Balanced()
    {
      cardsStudied := cardsStudied + 1;
      if isCorrect {
        cardsCorrect := cardsCorrect + 1;
      } else {
        cardsIncorrect := cardsIncorrect + 1;
      }
    }
  }
}
