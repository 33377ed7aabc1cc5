/** The study use cases (application/use_cases/study_use_cases.py): starting
    and finishing sessions, picking cards for the flashcard, multiple-choice
    and match modes, and grading a written answer. `random.shuffle` is
    modelled by the Fisher–Yates loop CPython runs, fed with the numbers the
    generator returns, which become a parameter. */
module StudyUseCases {
  import opened Common
  import opened Text
  import opened Cards
  import opened Sessions
  import opened Repositories

  // ---------------------------------------------------------------------
  // random.shuffle

  /** The `k`-th number the generator returns; a stream that runs out keeps
      returning 0. */
  function Draw(draws: seq<nat>, k: nat): nat {
    if k < |draws| then draws[k] else 0
  }

  /** Exchanging two entries keeps the same elements. */
  function Swap<T>(t: seq<T>, i: nat, j: nat): (u: seq<T>)
    requires i < |t| && j < |t|
    ensures |u| == |t| && u[i] == t[j] && u[j] == t[i]
    ensures forall k :: 0 <= k < |t| && k != i && k != j ==> u[k] == t[k]
    ensures multiset(u) == multiset(t)
  {
    var v := t[i := t[j]];
    assert multiset(v) == multiset(t) - multiset{t[i]} + multiset{t[j]};
    v[j := t[i]]
  }

  /** `random.shuffle(x)`: for `i` from `len(x) - 1` down to 1, swap `x[i]`
      with `x[j]` for a `j` drawn below `i + 1`. It shuffles the list; the
      result has the same length and the same elements. */
  method Shuffle<T>(s: seq<T>, draws: seq<nat>) returns (t: seq<T>)
    ensures |t| == |s|
    ensures multiset(t) == multiset(s)
  {
    t := s;
    var i := |s| - 1;
    while i >= 1
      invariant i < |s|
      invariant |t| == |s|
      invariant multiset(t) == multiset(s)
    {
      var j := Draw(draws, |s| - 1 - i) % (i + 1);
      t := Swap(t, i, j);
      i := i - 1;
    }
  }

  // ---------------------------------------------------------------------
  // Written answers

  /** `s.strip().lower()`: as long as the stripped text. */
  function Normalize(s: string): (r: string)
    ensures |r| == |Strip(s)| <= |s|
  {
    Lower(Strip(s))
  }

  /** Lower-casing never turns a character into whitespace or back. */
  lemma LowerKeepsSpace(c: char)
    ensures IsSpace(LowerChar(c)) <==> IsSpace(c)
  {
  }

  /** Normalizing a normalized answer changes nothing. */
  lemma {:induction false} NormalizeIdempotent(s: string)
    ensures Normalize(Normalize(s)) == Normalize(s)
  {
    var t := Strip(s);
    var u := Lower(t);
    if u != [] {
      LowerKeepsSpace(t[0]);
      LowerKeepsSpace(t[|t| - 1]);
    }
    assert Surrounds(u, 0, u);
    StripUnique(u, 0, u);
    LowerIdempotent(t);
  }

  /** `StudyWriteUseCase.check_answer` once the card is loaded: correct when
      the normalized forms agree (quality 4); otherwise quality 2 when one
      normalized form occurs inside the other, and 0 when neither does. */
  function Grade(correct: string, answer: string): (r: (bool, int))
    ensures r.0 <==> Normalize(answer) == Normalize(correct)
    ensures r.1 == 0 || r.1 == 2 || r.1 == 4
    ensures r.0 <==> r.1 == 4
    ensures r.1 == 2 <==> !r.0 && (Contains(Normalize(answer), Normalize(correct))
                                   || Contains(Normalize(correct), Normalize(answer)))
  {
    var user := Normalize(answer);
    var expected := Normalize(correct);
    var isCorrect := user == expected;
    var quality :=
      if isCorrect then 4
      else if Contains(user, expected) || Contains(expected, user) then 2
      else 0;
    (isCorrect, quality)
  }

  /** The stored answer itself is always correct. */
  lemma GradeOwnAnswer(correct: string)
    ensures Grade(correct, correct) == (true, 4)
  {
  }

  /** An answer that is blank after stripping gets partial credit against any
      answer that is not, since the empty string occurs in every string. */
  lemma {:induction false} BlankAnswerScoresPartial(correct: string, answer: string)
    requires AllSpace(answer)
    requires !AllSpace(correct)
    ensures Grade(correct, answer) == (false, 2)
  {
    StripEmptyIffBlank(answer);
    StripEmptyIffBlank(correct);
    EmptyContained(Normalize(correct));
  }

  /** Whitespace around the answer never changes its grade. */
  lemma PaddingDoesNotMatter(correct: string, p: string, answer: string, q: string)
    requires AllSpace(p) && AllSpace(q)
    ensures Grade(correct, p + answer + q) == Grade(correct, answer)
  {
    StripIgnoresPadding(p, answer, q);
  }

  /** A partial grade means one normalized form lies strictly inside the
      other: their lengths differ. */
  lemma PartialMeansLengthsDiffer(correct: string, answer: string)
    requires Grade(correct, answer).1 == 2
    ensures |Normalize(answer)| != |Normalize(correct)|
  {
    var user, expected := Normalize(answer), Normalize(correct);
    if Contains(user, expected) {
      ContainsNoLonger(user, expected);
    } else {
      ContainsNoLonger(expected, user);
    }
  }

  /** `StudyWriteUseCase.check_answer`: fails for a missing card, otherwise
      grades against the stored back. */
  method CheckAnswer(repo: CardRepository, cardId: Id, answer: string) returns (r: Result<(bool, int)>)
    ensures cardId !in repo.cards ==> r == Err(CardNotFound)
    ensures cardId in repo.cards ==> r == Ok(Grade(repo.cards[cardId].back, answer))
  {
    var found := repo.GetById(cardId);
    if found.None? {
      return Err(CardNotFound);
    }
    var card := found.value;
    r := Ok(Grade(card.back, answer));
  }

  // ---------------------------------------------------------------------
  // Picking cards

  /** What the flashcard mode may return: stored cards of the deck, each
      once; when any card is due, the earliest due ones in due-date order,
      cut to `[:limit]`; otherwise the whole deck cut to `[:limit]`. */
  predicate FlashcardChoice(cards: map<Id, CardRecord>, deckId: Id, limit: int, now: Time, r: seq<CardRecord>) {
    && AllStored(cards, r) && DistinctIds(r) && InDeck(r, deckId)
    && (limit >= 0 ==> |r| <= limit)
    && (DueIds(cards, deckId, now) != {} ==>
          && (forall i :: 0 <= i < |r| ==> r[i].IsDue(now))
          && |r| == SliceLength(|DueIds(cards, deckId, now)|, limit)
          && SortedByDue(r) && EarliestDue(cards, DueIds(cards, deckId, now), r))
    && (DueIds(cards, deckId, now) == {} ==>
          && |r| == SliceLength(|DeckIds(cards, deckId)|, limit)
          && (limit >= |DeckIds(cards, deckId)| ==> IdsOf(r) == DeckIds(cards, deckId)))
  }

  /** Cutting the due cards the query returns is a flashcard choice. */
  lemma DueCardsChoice(cards: map<Id, CardRecord>, deckId: Id, limit: int, now: Time, due: seq<CardRecord>)
    requires AllStored(cards, due) && DistinctIds(due)
    requires forall i :: 0 <= i < |due| ==> due[i].deckId == deckId && due[i].IsDue(now)
    requires |due| == if limit > 0 then Min(limit, |DueIds(cards, deckId, now)|) else |DueIds(cards, deckId, now)|
    requires SortedByDue(due) && EarliestDue(cards, DueIds(cards, deckId, now), due)
    requires DueIds(cards, deckId, now) != {}
    ensures FlashcardChoice(cards, deckId, limit, now, SliceTo(due, limit))
  {
    var picked := SliceTo(due, limit);
    assert forall i :: 0 <= i < |picked| ==> picked[i] == due[i];
    PrefixEarliest(cards, DueIds(cards, deckId, now), due, |picked|);
  }

  /** When nothing is due, cutting the whole deck is a flashcard choice. */
  lemma DeckCardsChoice(cards: map<Id, CardRecord>, deckId: Id, limit: int, now: Time, all: seq<CardRecord>)
    requires Lists(cards, DeckIds(cards, deckId), all)
    requires DueIds(cards, deckId, now) == {}
    ensures FlashcardChoice(cards, deckId, limit, now, SliceTo(all, limit))
  {
    DistinctIdsCount(all);
    ListedInDeck(cards, deckId, DeckIds(cards, deckId), all);
    var picked := SliceTo(all, limit);
    PrefixKeepsListing(cards, deckId, all, |picked|);
    if limit >= |all| {
      assert picked == all;
    }
  }

  /** `StudyFlashcardsUseCase.execute`: fails for a missing deck; otherwise
      the due cards, or all the deck's cards when none is due, cut with the
      Python slice `[:limit]`. */
  method StudyFlashcards(decks: DeckRepository, repo: CardRepository, deckId: Id, limit: int, now: Time)
    returns (r: Result<seq<CardRecord>>)
    requires repo.Valid()
    ensures deckId !in decks.decks ==> r == Err(DeckNotFound)
    ensures deckId in decks.decks ==> r.Ok? && FlashcardChoice(repo.cards, deckId, limit, now, r.value)
  {
    var deck := decks.GetById(deckId);
    if deck.None? {
      return Err(DeckNotFound);
    }
    var cards := repo.GetDueCards(deckId, limit, now);
    if |cards| == 0 {
      cards := repo.GetByDeckId(deckId);
      DeckCardsChoice(repo.cards, deckId, limit, now, cards);
    } else {
      DueCardsChoice(repo.cards, deckId, limit, now, cards);
    }
    r := Ok(SliceTo(cards, limit));
  }

  /** `[c.back for c in cs]`. */
  function Backs(cs: seq<CardRecord>): (r: seq<string>)
    ensures |r| == |cs|
    ensures forall i :: 0 <= i < |cs| ==> r[i] == cs[i].back
  {
    seq(|cs|, i requires 0 <= i < |cs| => cs[i].back)
  }

  /** `others` is a choice of distractors: as many stored cards of the deck,
      other than the asked one, as there are up to three, each once. */
  predicate Distractors(cards: map<Id, CardRecord>, deckId: Id, cardId: Id, others: seq<CardRecord>) {
    && AllStored(cards, others) && DistinctIds(others) && InDeck(others, deckId)
    && (forall i :: 0 <= i < |others| ==> others[i].id != cardId)
    && |others| == Min(3, |DeckIds(cards, deckId) - {cardId}|)
  }

  /** Every card of `s` belongs to the deck. */
  predicate InDeck(s: seq<CardRecord>, deckId: Id) {
    forall i :: 0 <= i < |s| ==> s[i].deckId == deckId
  }

  /** The cards of a listing all belong to the deck whose ids it lists. */
  lemma ListedInDeck(cards: map<Id, CardRecord>, deckId: Id, ids: set<Id>, s: seq<CardRecord>)
    requires Lists(cards, ids, s)
    requires ids <= DeckIds(cards, deckId)
    ensures InDeck(s, deckId)
  {
    forall i | 0 <= i < |s| ensures s[i].deckId == deckId {
      assert s[i].id in IdsOf(s);
    }
  }

  /** Reordering keeps the cards in their deck. */
  lemma PermutationKeepsDeck(s: seq<CardRecord>, t: seq<CardRecord>, deckId: Id)
    requires InDeck(s, deckId)
    requires multiset(s) == multiset(t)
    ensures InDeck(t, deckId)
  {
    forall i | 0 <= i < |t| ensures t[i].deckId == deckId {
      assert t[i] in multiset(s);
    }
  }

  /** A prefix of stored, distinct cards of the deck is again such. */
  lemma PrefixKeepsListing(cards: map<Id, CardRecord>, deckId: Id, s: seq<CardRecord>, n: nat)
    requires AllStored(cards, s) && DistinctIds(s) && InDeck(s, deckId)
    requires n <= |s|
    ensures AllStored(cards, s[..n]) && DistinctIds(s[..n]) && InDeck(s[..n], deckId)
  {
    assert forall i :: 0 <= i < n ==> s[..n][i] == s[i];
  }

  /** The deck's cards but the asked one list the other ids of the deck. */
  lemma OtherCardsListing(cards: map<Id, CardRecord>, deckId: Id, cardId: Id, all: seq<CardRecord>)
    requires Lists(cards, DeckIds(cards, deckId), all)
    ensures AllStored(cards, WithoutId(all, cardId)) && DistinctIds(WithoutId(all, cardId))
    ensures InDeck(WithoutId(all, cardId), deckId)
    ensures |WithoutId(all, cardId)| == |DeckIds(cards, deckId) - {cardId}|
  {
    var other := WithoutId(all, cardId);
    WithoutIdIds(all, cardId);
    SubRowsKeepListing(cards, all, other);
    DistinctIdsCount(other);
    ListedInDeck(cards, deckId, DeckIds(cards, deckId) - {cardId}, other);
  }

  /** Filtering out the asked card, reordering and keeping three gives a
      choice of distractors. */
  lemma ShuffledDistractors(cards: map<Id, CardRecord>, deckId: Id, cardId: Id,
                            all: seq<CardRecord>, shuffled: seq<CardRecord>)
    requires Lists(cards, DeckIds(cards, deckId), all)
    requires multiset(shuffled) == multiset(WithoutId(all, cardId))
    ensures Distractors(cards, deckId, cardId, SliceTo(shuffled, 3))
  {
    var other := WithoutId(all, cardId);
    OtherCardsListing(cards, deckId, cardId, all);
    DistractorsFromShuffled(cards, deckId, cardId, other, shuffled);
  }

  /** Reordering the other cards of the deck and keeping three of them gives
      a choice of distractors. */
  lemma DistractorsFromShuffled(cards: map<Id, CardRecord>, deckId: Id, cardId: Id,
                                other: seq<CardRecord>, shuffled: seq<CardRecord>)
    requires AllStored(cards, other) && DistinctIds(other) && InDeck(other, deckId)
    requires forall i :: 0 <= i < |other| ==> other[i].id != cardId
    requires |other| == |DeckIds(cards, deckId) - {cardId}|
    requires multiset(shuffled) == multiset(other)
    ensures Distractors(cards, deckId, cardId, SliceTo(shuffled, 3))
  {
    SubRowsKeepListing(cards, other, shuffled);
    PermutationKeepsDeck(other, shuffled, deckId);
    PermutationKeepsAvoiding(other, shuffled, cardId);
    var others := SliceTo(shuffled, 3);
    PrefixKeepsListing(cards, deckId, shuffled, |others|);
    assert forall i :: 0 <= i < |others| ==> others[i] == shuffled[i];
  }

  /** Reordering keeps a card with the given id out. */
  lemma PermutationKeepsAvoiding(s: seq<CardRecord>, t: seq<CardRecord>, id: Id)
    requires forall i :: 0 <= i < |s| ==> s[i].id != id
    requires multiset(s) == multiset(t)
    ensures forall i :: 0 <= i < |t| ==> t[i].id != id
  {
    forall i | 0 <= i < |t| ensures t[i].id != id {
      assert t[i] in multiset(s);
    }
  }

  /** `StudyMultipleChoiceUseCase.execute`: fails for a missing card;
      otherwise the card and its options, a reordering of its own back and
      the backs of up to three other cards of the deck. The deck itself is
      not looked up. */
  method StudyMultipleChoice(repo: CardRepository, deckId: Id, cardId: Id, draws: seq<nat>, optionDraws: seq<nat>)
    returns (r: Result<(CardRecord, seq<string>)>)
    requires repo.Valid()
    ensures cardId !in repo.cards ==> r == Err(CardNotFound)
    ensures cardId in repo.cards ==> r.Ok? && r.value.0 == repo.cards[cardId]
    ensures r.Ok? ==> r.value.0.back in r.value.1 && 1 <= |r.value.1| <= 4
    ensures r.Ok? ==> exists others :: Distractors(repo.cards, deckId, cardId, others)
                                 && multiset(r.value.1) == multiset([r.value.0.back] + Backs(others))
  {
    var found := repo.GetById(cardId);
    if found.None? {
      return Err(CardNotFound);
    }
    var card := found.value;
    var allCards := repo.GetByDeckId(deckId);
    var otherCards := WithoutId(allCards, cardId);
    var shuffled := Shuffle(otherCards, draws);
    ShuffledDistractors(repo.cards, deckId, cardId, allCards, shuffled);
    var others := SliceTo(shuffled, 3);
    var options := [card.back] + Backs(others);
    var mixed := Shuffle(options, optionDraws);
    assert card.back in multiset(mixed) by {
      assert options[0] == card.back;
    }
    r := Ok((card.Value(), mixed));
  }

  /** `[(c.front, c.back) for c in cs]`. */
  function FrontBacks(cs: seq<CardRecord>): (r: seq<(string, string)>)
    ensures |r| == |cs|
    ensures forall i :: 0 <= i < |cs| ==> r[i] == (cs[i].front, cs[i].back)
  {
    seq(|cs|, i requires 0 <= i < |cs| => (cs[i].front, cs[i].back))
  }

  /** `chosen` is what the match mode may pick: distinct stored cards of the
      deck, `[:limit]` of them, all of them when the limit allows. */
  predicate MatchChoice(cards: map<Id, CardRecord>, deckId: Id, limit: int, chosen: seq<CardRecord>) {
    && AllStored(cards, chosen) && DistinctIds(chosen) && InDeck(chosen, deckId)
    && |chosen| == SliceLength(|DeckIds(cards, deckId)|, limit)
    && (limit >= |DeckIds(cards, deckId)| ==> IdsOf(chosen) == DeckIds(cards, deckId))
  }

  /** Reordering the deck's cards and keeping `[:limit]` of them is a match choice. */
  lemma ShuffledMatchChoice(cards: map<Id, CardRecord>, deckId: Id, limit: int,
                            all: seq<CardRecord>, shuffled: seq<CardRecord>)
    requires Lists(cards, DeckIds(cards, deckId), all)
    requires multiset(shuffled) == multiset(all)
    ensures MatchChoice(cards, deckId, limit, SliceTo(shuffled, limit))
  {
    DistinctIdsCount(all);
    ListedInDeck(cards, deckId, DeckIds(cards, deckId), all);
    PermutationKeepsListing(cards, all, shuffled);
    PermutationKeepsDeck(all, shuffled, deckId);
    var chosen := SliceTo(shuffled, limit);
    PrefixKeepsListing(cards, deckId, shuffled, |chosen|);
    if limit >= |shuffled| {
      assert chosen == shuffled;
    }
  }

  /** `StudyMatchUseCase.execute`: fails for a missing deck; otherwise the
      (front, back) pairs of a shuffled `[:limit]` of the deck's cards. */
  method StudyMatch(decks: DeckRepository, repo: CardRepository, deckId: Id, limit: int, draws: seq<nat>)
    returns (r: Result<seq<(string, string)>>)
    requires repo.Valid()
    ensures deckId !in decks.decks ==> r == Err(DeckNotFound)
    ensures deckId in decks.decks ==> r.Ok?
    ensures r.Ok? ==> |r.value| == SliceLength(|DeckIds(repo.cards, deckId)|, limit)
    ensures r.Ok? ==> exists chosen :: MatchChoice(repo.cards, deckId, limit, chosen) && r.value == FrontBacks(chosen)
  {
    var deck := decks.GetById(deckId);
    if deck.None? {
      return Err(DeckNotFound);
    }
    var cards := repo.GetByDeckId(deckId);
    var shuffled := Shuffle(cards, draws);
    ShuffledMatchChoice(repo.cards, deckId, limit, cards, shuffled);
    var chosen := SliceTo(shuffled, limit);
    r := Ok(FrontBacks(chosen));
  }

  // ---------------------------------------------------------------------
  // Sessions

  /** `StartStudySessionUseCase.execute`: stores a new session;
      `newId` stands for the `uuid4()` drawn by `StudySession.create`. */
  method StartStudySession(repo: SessionRepository, newId: Id, userId: Id, deckId: Id,
                           mode: StudyMode, now: Time) returns (r: SessionRecord)
    requires repo.Valid()
    requires newId !in repo.sessions
    modifies repo
    ensures repo.Valid()
    ensures r == Started(newId, userId, deckId, mode, now)
    ensures repo.sessions == old(repo.sessions)[newId := r]
  {
    var session := new StudySession.Create(newId, userId, deckId, mode, now);
    r := repo.Create(session.Value());
  }

  /** `FinishStudySessionUseCase.execute`: fails for an unknown session,
      otherwise stores it with its finish time set and nothing else changed. */
  method FinishStudySession(repo: SessionRepository, sessionId: Id, now: Time) returns (r: Result<SessionRecord>)
    requires repo.Valid()
    modifies repo
    ensures repo.Valid()
    ensures sessionId !in old(repo.sessions) ==>
      r == Err(SessionNotFound) && repo.sessions == old(repo.sessions)
    ensures sessionId in old(repo.sessions) ==>
      && r == Ok(Finished(old(repo.sessions)[sessionId], now))
      && r.value.finishedAt.Some?
      && repo.sessions == old(repo.sessions)[sessionId := r.value]
  {
    var found := repo.GetById(sessionId);
    if found.None? {
      return Err(SessionNotFound);
    }
    var session := found.value;
    session.Finish(now);
    var row := repo.Update(session);
    r := Ok(row);
  }
}
