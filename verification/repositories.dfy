/** The stores the use cases read and write, each an abstract table: a map
    from identifier to row. Loading a row builds a fresh entity object, as the
    SQLAlchemy repositories do; writing back copies only the columns those
    repositories copy. The card table also keeps its rows in an order, which
    queries follow; their contracts do not depend on it. */
module Repositories {
  import opened Common
  import opened Cards
  import opened Decks
  import opened Sessions

  // ---------------------------------------------------------------------
  // Listings of card rows

  /** The identifiers of a sequence of rows. */
  function IdsOf(s: seq<CardRecord>): (ids: set<Id>)
    ensures forall i :: 0 <= i < |s| ==> s[i].id in ids
    ensures forall id :: id in ids ==> exists i :: 0 <= i < |s| && s[i].id == id
  {
    if s == [] then {} else IdsOf(s[..|s| - 1]) + {s[|s| - 1].id}
  }

  predicate DistinctIds(s: seq<CardRecord>) {
    forall i, j :: 0 <= i < j < |s| ==> s[i].id != s[j].id
  }

  /** Rows with pairwise different identifiers are as many as their identifiers. */
  lemma {:induction false} DistinctIdsCount(s: seq<CardRecord>)
    requires DistinctIds(s)
    ensures |IdsOf(s)| == |s|
  {
    if s != [] {
      var init := s[..|s| - 1];
      assert DistinctIds(init);
      DistinctIdsCount(init);
      assert s[|s| - 1].id !in IdsOf(init);
    }
  }

  /** Every row of `s` is the stored row under its own identifier. */
  predicate AllStored(cards: map<Id, CardRecord>, s: seq<CardRecord>) {
    forall i :: 0 <= i < |s| ==> s[i].id in cards && cards[s[i].id] == s[i]
  }

  /** Among stored rows, different rows and different identifiers are the same thing. */
  lemma StoredDistinct(cards: map<Id, CardRecord>, s: seq<CardRecord>)
    requires AllStored(cards, s)
    ensures Distinct(s) <==> DistinctIds(s)
  {
  }

  /** `s` lists, once each and in some order, the stored rows whose ids are `ids`. */
  predicate Lists(cards: map<Id, CardRecord>, ids: set<Id>, s: seq<CardRecord>) {
    AllStored(cards, s) && IdsOf(s) == ids && DistinctIds(s)
  }

  /** The ids of the cards of a deck. */
  function DeckIds(cards: map<Id, CardRecord>, deckId: Id): set<Id> {
    set id | id in cards && cards[id].deckId == deckId
  }

  /** The ids of the cards of a deck that are due at `now`. */
  function DueIds(cards: map<Id, CardRecord>, deckId: Id, now: Time): (ids: set<Id>)
    ensures ids <= DeckIds(cards, deckId)
  {
    set id | id in cards && cards[id].deckId == deckId && cards[id].IsDue(now)
  }

  /** `[c for c in s if c.id != id]`: some of the rows of `s`, all but those with that id. */
  function WithoutId(s: seq<CardRecord>, id: Id): (r: seq<CardRecord>)
    ensures forall i :: 0 <= i < |r| ==> r[i].id != id
    ensures multiset(r) <= multiset(s)
  {
    if s == [] then []
    else
      var init := s[..|s| - 1];
      var last := s[|s| - 1];
      assert s == init + [last];
      var w := WithoutId(init, id);
      if last.id == id then w else w + [last]
  }

  /** Filtering by id removes exactly that id. */
  lemma {:induction false} WithoutIdIds(s: seq<CardRecord>, id: Id)
    ensures IdsOf(WithoutId(s, id)) == IdsOf(s) - {id}
    decreases |s|
  {
    if s != [] {
      var init := s[..|s| - 1];
      var last := s[|s| - 1];
      var w := WithoutId(init, id);
      WithoutIdIds(init, id);
      if last.id != id {
        assert (w + [last])[..|w|] == w;
      }
    }
  }

  /** Some of the rows of a listing, in any order, are stored rows with
      distinct identifiers again. */
  lemma SubRowsKeepListing(cards: map<Id, CardRecord>, s: seq<CardRecord>, t: seq<CardRecord>)
    requires AllStored(cards, s) && DistinctIds(s)
    requires multiset(t) <= multiset(s)
    ensures AllStored(cards, t) && DistinctIds(t)
  {
    assert AllStored(cards, t) by {
      forall i | 0 <= i < |t| ensures t[i].id in cards && cards[t[i].id] == t[i] {
        assert t[i] in multiset(s);
      }
    }
    StoredDistinct(cards, s);
    SubMultisetKeepsDistinct(s, t);
    StoredDistinct(cards, t);
  }

  /** The rows listing the due ids are due cards of the deck. */
  lemma ListedDue(cards: map<Id, CardRecord>, deckId: Id, now: Time, r: seq<CardRecord>)
    requires Lists(cards, DueIds(cards, deckId, now), r)
    ensures forall i :: 0 <= i < |r| ==> r[i].deckId == deckId && r[i].IsDue(now)
  {
    forall i | 0 <= i < |r| ensures r[i].deckId == deckId && r[i].IsDue(now) {
      assert r[i].id in IdsOf(r);
    }
  }

  /** A prefix of stored rows with distinct ids is such again, row for row. */
  lemma PrefixRows(cards: map<Id, CardRecord>, s: seq<CardRecord>, n: nat)
    requires AllStored(cards, s) && DistinctIds(s)
    requires n <= |s|
    ensures AllStored(cards, s[..n]) && DistinctIds(s[..n])
    ensures forall i :: 0 <= i < n ==> s[..n][i] == s[i]
  {
    assert s == s[..n] + s[n..];
    SubRowsKeepListing(cards, s, s[..n]);
  }

  /** The ids among `ids` that occur in the first `n` entries of `order`. */
  function SeenAmong(order: seq<Id>, n: nat, ids: set<Id>): set<Id>
    requires n <= |order|
  {
    set k | k in order[..n] && k in ids
  }

  /** Appending a stored row with a new id extends a listing by that id. */
  lemma ListsSnoc(cards: map<Id, CardRecord>, ids: set<Id>, r: seq<CardRecord>, c: CardRecord)
    requires Lists(cards, ids, r)
    requires c.id in cards && cards[c.id] == c && c.id !in ids
    ensures Lists(cards, ids + {c.id}, r + [c])
  {
    assert (r + [c])[..|r|] == r;
  }

  /** Reordering stored rows with distinct ids keeps them stored, distinct,
      and the same set of ids. */
  lemma PermutationKeepsListing(cards: map<Id, CardRecord>, s: seq<CardRecord>, t: seq<CardRecord>)
    requires AllStored(cards, s) && DistinctIds(s)
    requires multiset(s) == multiset(t)
    ensures AllStored(cards, t) && DistinctIds(t)
    ensures IdsOf(t) == IdsOf(s)
  {
    SubRowsKeepListing(cards, s, t);
    assert forall i :: 0 <= i < |t| ==> t[i] in multiset(s);
    assert forall i :: 0 <= i < |s| ==> s[i] in multiset(t);
  }

  // ---------------------------------------------------------------------
  // Due-date order

  /** `due_date.asc().nullsfirst()`: a card without a due date comes before
      every dated one, dated cards come by due date. */
  predicate DueNoLater(a: CardRecord, b: CardRecord) {
    a.fsrs.dueDate.None? || (b.fsrs.dueDate.Some? && a.fsrs.dueDate.value <= b.fsrs.dueDate.value)
  }

  predicate SortedByDue(s: seq<CardRecord>) {
    forall i, j :: 0 <= i < j < |s| ==> DueNoLater(s[i], s[j])
  }

  /** Puts `c` before the first row it is due no later than. */
  function InsertByDue(c: CardRecord, s: seq<CardRecord>): (r: seq<CardRecord>)
    requires SortedByDue(s)
    ensures SortedByDue(r)
    ensures multiset(r) == multiset(s) + multiset{c}
  {
    if s == [] then [c]
    else if DueNoLater(c, s[0]) then [c] + s
    else
      var rest := InsertByDue(c, s[1..]);
      assert s == [s[0]] + s[1..];
      HeadBeforeRest(s, c, rest);
      [s[0]] + rest
  }

  /** The first of sorted rows stays first when a later-due row is inserted
      among the others. */
  lemma HeadBeforeRest(s: seq<CardRecord>, c: CardRecord, rest: seq<CardRecord>)
    requires s != [] && SortedByDue(s) && !DueNoLater(c, s[0])
    requires SortedByDue(rest) && multiset(rest) == multiset(s[1..]) + multiset{c}
    ensures SortedByDue([s[0]] + rest)
  {
    forall k | 0 <= k < |rest| ensures DueNoLater(s[0], rest[k]) {
      assert rest[k] in multiset(rest);
      if rest[k] != c {
        assert rest[k] in s[1..];
        var m :| 0 <= m < |s| - 1 && s[1..][m] == rest[k];
        assert s[m + 1] == rest[k];
      }
    }
    var r := [s[0]] + rest;
    forall i, j | 0 <= i < j < |r| ensures DueNoLater(r[i], r[j]) {
      assert r[j] == rest[j - 1];
      if i > 0 {
        assert r[i] == rest[i - 1];
      }
    }
  }

  /** The rows in the query's `ORDER BY` order; rows due at the same instant
      keep no particular order, as in SQL. */
  function SortByDue(s: seq<CardRecord>): (r: seq<CardRecord>)
    ensures SortedByDue(r)
    ensures multiset(r) == multiset(s)
  {
    if s == [] then []
    else
      assert s == [s[0]] + s[1..];
      InsertByDue(s[0], SortByDue(s[1..]))
  }

  /** No card of `ids` that `s` leaves out is due before a card of `s`. */
  predicate EarliestDue(cards: map<Id, CardRecord>, ids: set<Id>, s: seq<CardRecord>) {
    forall i, k :: 0 <= i < |s| && k in ids && k in cards && k !in IdsOf(s) ==> DueNoLater(s[i], cards[k])
  }

  /** A prefix of sorted rows keeps the earliest ones: what `ORDER BY ... LIMIT n`
      returns. */
  lemma PrefixEarliest(cards: map<Id, CardRecord>, ids: set<Id>, s: seq<CardRecord>, n: nat)
    requires AllStored(cards, s) && SortedByDue(s) && EarliestDue(cards, ids, s)
    requires n <= |s|
    ensures SortedByDue(s[..n]) && EarliestDue(cards, ids, s[..n])
  {
    var p := s[..n];
    forall i, k | 0 <= i < |p| && k in ids && k in cards && k !in IdsOf(p)
      ensures DueNoLater(p[i], cards[k])
    {
      if k in IdsOf(s) {
        var j :| 0 <= j < |s| && s[j].id == k;
        assert forall m :: 0 <= m < n ==> p[m].id != k;
        assert j >= n;
        assert p[i] == s[i] && cards[k] == s[j];
      }
    }
  }

  /** The due listing in due-date order lists the same cards, earliest first. */
  lemma SortedDueRows(cards: map<Id, CardRecord>, deckId: Id, now: Time, listed: seq<CardRecord>)
    requires Lists(cards, DueIds(cards, deckId, now), listed)
    ensures var sorted := SortByDue(listed);
      && Lists(cards, DueIds(cards, deckId, now), sorted) && |sorted| == |listed|
      && SortedByDue(sorted) && EarliestDue(cards, DueIds(cards, deckId, now), sorted)
  {
    var sorted := SortByDue(listed);
    PermutationKeepsListing(cards, listed, sorted);
    assert |multiset(sorted)| == |multiset(listed)|;
  }

  /** The first `n` of the sorted due cards are due cards of the deck, earliest first. */
  lemma DuePrefixRows(cards: map<Id, CardRecord>, deckId: Id, now: Time, sorted: seq<CardRecord>, n: nat)
    requires Lists(cards, DueIds(cards, deckId, now), sorted)
    requires SortedByDue(sorted) && EarliestDue(cards, DueIds(cards, deckId, now), sorted)
    requires n <= |sorted|
    ensures AllStored(cards, sorted[..n]) && DistinctIds(sorted[..n])
    ensures forall i :: 0 <= i < n ==> sorted[..n][i].deckId == deckId && sorted[..n][i].IsDue(now)
    ensures SortedByDue(sorted[..n]) && EarliestDue(cards, DueIds(cards, deckId, now), sorted[..n])
  {
    ListedDue(cards, deckId, now, sorted);
    PrefixRows(cards, sorted, n);
    PrefixEarliest(cards, DueIds(cards, deckId, now), sorted, n);
  }

  /** While a card without a due date is left out, every kept card is undated too. */
  lemma UndatedFirst(cards: map<Id, CardRecord>, ids: set<Id>, r: seq<CardRecord>, k: Id)
    requires EarliestDue(cards, ids, r)
    requires k in ids && k in cards && cards[k].fsrs.dueDate.None? && k !in IdsOf(r)
    ensures forall i :: 0 <= i < |r| ==> r[i].fsrs.dueDate.None?
  {
  }

  // ---------------------------------------------------------------------
  // The stores

  /** The card table: the rows by id, and the order in which the table holds them. */
  class CardRepository {
    var cards: map<Id, CardRecord>
    var order: seq<Id>

    /** Every row is stored under its own id, and `order` lists each id once. */
    ghost predicate Valid()
      reads this
    {
      && (forall id :: id in cards ==> cards[id].id == id)
      && Distinct(order)
      && (forall k :: 0 <= k < |order| ==> order[k] in cards)
      && (forall id :: id in cards ==> id in order)
    }

    /** An empty card table. */
    constructor ()
      ensures cards == map[] && order == []
      ensures Valid()
    {
      cards, order := map[], [];
    }

    /** `get_by_id`: a fresh entity built from the row, or None. */
    method GetById(id: Id) returns (card: Option<Card>)
      ensures id !in cards ==> card.None?
      ensures id in cards ==> card.Some? && fresh(card.value) && fresh(card.value.fsrsState)
                              && card.value.Value() == cards[id]
    {
      if id in cards {
        var c := new Card.FromRecord(cards[id]);
        card := Some(c);
      } else {
        card := None;
      }
    }

    /** `create`: inserts the row of a new entity. */
    method Create(card: CardRecord) returns (r: CardRecord)
      requires Valid()
      requires card.id !in cards
      modifies this
      ensures Valid()
      ensures r == card && cards == old(cards)[card.id := card]
    {
      cards := cards[card.id := card];
      order := order + [card.id];
      r := card;
    }

    /** `update`: touches `updated_at` through `card.update()`, then writes the
        columns the repository copies (not id, deck or creation time). */
    method Update(card: Card, now: Time) returns (r: CardRecord)
      requires Valid()
      requires card.id in cards
      modifies this, card
      ensures Valid()
      ensures card.fsrsState == old(card.fsrsState)
      ensures card.Value() == Cards.Edited(old(card.Value()), None, None, now)
      ensures r == Persisted(old(cards)[card.id], card.Value())
      ensures cards == old(cards)[card.id := r] && order == old(order)
    {
      card.Update(None, None, now);
      r := Persisted(cards[card.id], card.Value());
      cards := cards[card.id := r];
    }

    /** The rows with the given ids, once each, in table order. */
    method Collect(ids: set<Id>) returns (r: seq<CardRecord>)
      requires Valid()
      requires ids <= cards.Keys
      ensures Lists(cards, ids, r)
      ensures |r| == |ids|
    {
      r := [];
      for i := 0 to |order|
        invariant Lists(cards, SeenAmong(order, i, ids), r)
      {
        var id := order[i];
        assert order[..i + 1] == order[..i] + [id];
        if id in ids {
          assert id !in order[..i];
          ListsSnoc(cards, SeenAmong(order, i, ids), r, cards[id]);
          assert SeenAmong(order, i + 1, ids) == SeenAmong(order, i, ids) + {id};
          r := r + [cards[id]];
        } else {
          assert SeenAmong(order, i + 1, ids) == SeenAmong(order, i, ids);
        }
      }
      assert order[..|order|] == order;
      assert forall k :: k in ids ==> k in cards && k in order[..|order|];
      assert SeenAmong(order, |order|, ids) == ids;
      DistinctIdsCount(r);
    }

    /** `get_by_deck_id`: the deck's cards, in the database's order. */
    method GetByDeckId(deckId: Id) returns (r: seq<CardRecord>)
      requires Valid()
      ensures Lists(cards, DeckIds(cards, deckId), r)
      ensures |r| == |DeckIds(cards, deckId)|
    {
      r := Collect(DeckIds(cards, deckId));
    }

    /** `get_due_cards`: the deck's cards that are due at `now`, ordered by
        due date with undated cards first; a positive `limit` keeps that many
        of the earliest. */
    method GetDueCards(deckId: Id, limit: int, now: Time) returns (r: seq<CardRecord>)
      requires Valid()
      ensures AllStored(cards, r) && DistinctIds(r)
      ensures forall i :: 0 <= i < |r| ==> r[i].deckId == deckId && r[i].IsDue(now)
      ensures |r| == if limit > 0 then Min(limit, |DueIds(cards, deckId, now)|) else |DueIds(cards, deckId, now)|
      ensures limit <= 0 ==> IdsOf(r) == DueIds(cards, deckId, now)
      ensures SortedByDue(r) && EarliestDue(cards, DueIds(cards, deckId, now), r)
    {
      var listed := Collect(DueIds(cards, deckId, now));
      var sorted := SortByDue(listed);
      SortedDueRows(cards, deckId, now, listed);
      var n := if 0 < limit < |sorted| then limit else |sorted|;
      DuePrefixRows(cards, deckId, now, sorted, n);
      r := sorted[..n];
      if n == |sorted| {
        assert r == sorted;
      }
    }
  }

  /** The card columns `CardRepository.update` writes over the stored row. */
  function Persisted(row: CardRecord, entity: CardRecord): (r: CardRecord)
    ensures r.id == row.id && r.deckId == row.deckId && r.createdAt == row.createdAt
    ensures r.front == entity.front && r.back == entity.back && r.updatedAt == entity.updatedAt
    ensures r.fsrs == entity.fsrs && r.audioUrl == entity.audioUrl
    ensures (entity.id == row.id && entity.deckId == row.deckId && entity.createdAt == row.createdAt)
            ==> r == entity
  {
    row.(front := entity.front, back := entity.back, updatedAt := entity.updatedAt,
         fsrs := entity.fsrs, audioUrl := entity.audioUrl)
  }

  /** The deck table; the use cases only load decks to see that they exist. */
  class DeckRepository {
    var decks: map<Id, DeckRecord>

    /** An empty deck table. */
    constructor ()
      ensures decks == map[]
    {
      decks := map[];
    }

    /** `create`: inserts the row of a new deck. */
    method Create(deck: DeckRecord) returns (r: DeckRecord)
      requires deck.id !in decks
      modifies this
      ensures r == deck && decks == old(decks)[deck.id := deck]
    {
      decks := decks[deck.id := deck];
      r := deck;
    }

    /** `get_by_id`: a fresh entity built from the row, or None. */
    method GetById(id: Id) returns (deck: Option<Deck>)
      ensures id !in decks ==> deck.None?
      ensures id in decks ==> deck.Some? && fresh(deck.value) && deck.value.Value() == decks[id]
    {
      if id in decks {
        var d := new Deck.FromRecord(decks[id]);
        deck := Some(d);
      } else {
        deck := None;
      }
    }
  }

  /** The study-session table. */
  class SessionRepository {
    var sessions: map<Id, SessionRecord>

    ghost predicate Valid()
      reads this
    {
      forall id :: id in sessions ==> sessions[id].id == id
    }

    /** An empty session table. */
    constructor ()
      ensures sessions == map[]
      ensures Valid()
    {
      sessions := map[];
    }

    /** `get_by_id`: a fresh entity built from the row, or None. */
    method GetById(id: Id) returns (session: Option<StudySession>)
      ensures id !in sessions ==> session.None?
      ensures id in sessions ==> session.Some? && fresh(session.value)
                                 && session.value.Value() == sessions[id]
    {
      if id in sessions {
        var s := new StudySession.FromRecord(sessions[id]);
        session := Some(s);
      } else {
        session := None;
      }
    }

    /** `create`: inserts the row of a new session. */
    method Create(session: SessionRecord) returns (r: SessionRecord)
      requires Valid()
      requires session.id !in sessions
      modifies this
      ensures Valid()
      ensures r == session && sessions == old(sessions)[session.id := session]
    {
      sessions := sessions[session.id := session];
      r := session;
    }

    /** `update`: writes the finish time and the three counters. */
    method Update(session: StudySession) returns (r: SessionRecord)
      requires Valid()
      requires session.id in sessions
      modifies this
      ensures Valid()
      ensures r == SessionPersisted(old(sessions)[session.id], session.Value())
      ensures sessions == old(sessions)[session.id := r]
    {
      r := SessionPersisted(sessions[session.id], session.Value());
      sessions := sessions[session.id := r];
    }
  }

  /** The session columns `StudySessionRepository.update` writes over the stored row. */
  function SessionPersisted(row: SessionRecord, entity: SessionRecord): (r: SessionRecord)
    ensures r.id == row.id && r.userId == row.userId && r.deckId == row.deckId
            && r.mode == row.mode && r.startedAt == row.startedAt
    ensures r.finishedAt == entity.finishedAt && r.cardsStudied == entity.cardsStudied
            && r.cardsCorrect == entity.cardsCorrect && r.cardsIncorrect == entity.cardsIncorrect
    ensures (entity.id == row.id && entity.userId == row.userId && entity.deckId == row.deckId
             && entity.mode == row.mode && entity.startedAt == row.startedAt) ==> r == entity
  {
    row.(finishedAt := entity.finishedAt, cardsStudied := entity.cardsStudied,
         cardsCorrect := entity.cardsCorrect, cardsIncorrect := entity.cardsIncorrect)
  }
}
