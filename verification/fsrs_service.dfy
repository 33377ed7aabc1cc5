/** The review scheduler (application/services/fsrs_service.py): how one answer
    of quality 0..5 moves a card's stability, difficulty, ease factor, interval
    and due date. The functions below describe the new state as a value; the
    methods update an `FSRSState` object in place, as the service does. */
module Scheduler {
  import opened Common
  import opened Cards

  const InitialStability: real := 0.4
  const MinStability: real := 0.1
  const MaxStability: real := 365.0

  /** `max(lo, min(hi, x))`. */
  function Clamp(lo: real, hi: real, x: real): (r: real)
    requires lo <= hi
    ensures lo <= r <= hi
    ensures lo <= x <= hi ==> r == x
    ensures x < lo ==> r == lo
    ensures hi < x ==> r == hi
  {
    if hi < x then hi else if x < lo then lo else x
  }

  /** Python's `int(x)` on a float: truncation toward zero. */
  function Truncate(x: real): (n: int)
    ensures 0.0 <= x ==> n as real <= x < n as real + 1.0
    ensures x < 0.0 ==> n as real - 1.0 < x <= n as real
  {
    if x >= 0.0 then x.Floor else -((-x).Floor)
  }

  /** `_calculate_interval`: whole days until the next review. */
  function CalculateInterval(stability: real, quality: int): (days: int)
    ensures days >= 1
    ensures quality < 3 ==> days == 1
    ensures quality >= 3 && 1.0 <= 2.0 * stability ==> days as real <= 2.0 * stability < days as real + 1.0
    ensures quality >= 3 && 2.0 * stability < 1.0 ==> days == 1
  {
    if quality >= 3 then Max(1, Truncate(stability * 2.0)) else 1
  }

  /** Stability after the first review (not clamped); every valid quality
      keeps it inside the range later reviews clamp to. */
  function FirstStability(quality: int): (r: real)
    ensures 0 <= quality <= 5 ==> MinStability <= r <= MaxStability
  {
    if quality >= 3 then InitialStability * (1 + quality - 3) as real else InitialStability * 0.5
  }

  /** Stability after a later review, before clamping: a good answer never
      lowers a non-negative stability and a failure never raises it. */
  function NextStability(s: ReviewState, quality: int): (r: real)
    ensures 0.0 <= s.stability && quality >= 3 ==> r >= s.stability
    ensures 0.0 <= s.stability && quality < 3 ==> r <= s.stability
  {
    if quality >= 3 then
      if s.reviewCount == 1 then s.stability * 1.5
      else
        var growth := (quality - 3) as real * 0.3;
        assert s.stability * (1.0 + growth) == s.stability + s.stability * growth;
        s.stability * (1.0 + growth)
    else s.stability * 0.8
  }

  /** Ease-factor change of a later review; a valid quality adds at most 0.1. */
  function EaseDelta(quality: int): (r: real)
    ensures quality <= 5 ==> r <= 0.1
  {
    var d := (5 - quality) as real;
    assert d >= 0.0 ==> d * (0.08 + d * 0.02) >= 0.0;
    0.1 - d * (0.08 + d * 0.02)
  }

  /** Sets the review bookkeeping both branches share. */
  function Scheduled(s: ReviewState, stability: real, difficulty: real, ease: real,
                     count: int, quality: int, now: Time): ReviewState
  {
    var interval := CalculateInterval(stability, quality);
    s.(stability := stability, difficulty := difficulty, easeFactor := ease,
       interval := interval, reviewCount := count,
       lastReview := Some(now), dueDate := Some(now + interval * SecondsPerDay))
  }

  /** `_first_review` as a value. */
  function FirstReviewed(s: ReviewState, quality: int, now: Time): ReviewState {
    Scheduled(s, FirstStability(quality), Clamp(0.1, 1.0, (4 - quality) as real / 4.0), 2.5, 1, quality, now)
  }

  /** `_subsequent_review` as a value. */
  function SubsequentReviewed(s: ReviewState, quality: int, now: Time): ReviewState {
    Scheduled(s,
      Clamp(MinStability, MaxStability, NextStability(s, quality)),
      Clamp(0.1, 1.0, s.difficulty - 0.2 + (4 - quality) as real * 0.1),
      Clamp(1.3, 2.5, s.easeFactor + EaseDelta(quality)),
      s.reviewCount + 1, quality, now)
  }

  /** `review_card` as a value: the branch is chosen by the old review count. */
  function Reviewed(s: ReviewState, quality: int, now: Time): ReviewState {
    if s.reviewCount == 0 then FirstReviewed(s, quality, now) else SubsequentReviewed(s, quality, now)
  }

  /** The bounds every reviewed state satisfies. */
  predicate WellScheduled(s: ReviewState) {
    && s.reviewCount >= 1
    && MinStability <= s.stability <= MaxStability
    && 0.1 <= s.difficulty <= 1.0
    && 1.3 <= s.easeFactor <= 2.5
    && s.interval >= 1
    && s.lastReview.Some? && s.dueDate.Some?
    && s.dueDate.value == s.lastReview.value + s.interval * SecondsPerDay
  }

  /** `_first_review` on the state object. */
  method FirstReview(state: FSRSState, quality: int, now: Time) returns (r: FSRSState)
    modifies state
    ensures r == state
    ensures state.Value() == FirstReviewed(old(state.Value()), quality, now)
  {
    var stability: real;
    if quality >= 3 {
      stability := InitialStability * (1 + quality - 3) as real;
    } else {
      stability := InitialStability * 0.5;
    }
    var interval := CalculateInterval(stability, quality);
    state.stability := stability;
    state.difficulty := Clamp(0.1, 1.0, (4 - quality) as real / 4.0);
    state.easeFactor := 2.5;
    state.interval := interval;
    state.reviewCount := 1;
    state.lastReview := Some(now);
    state.dueDate := Some(now + interval * SecondsPerDay);
    r := state;
  }

  /** `_subsequent_review` on the state object. */
  method SubsequentReview(state: FSRSState, quality: int, now: Time) returns (r: FSRSState)
    modifies state
    ensures r == state
    ensures state.Value() == SubsequentReviewed(old(state.Value()), quality, now)
  {
    ghost var before := state.Value();
    var stability: real;
    if quality >= 3 {
      if state.reviewCount == 1 {
        stability := state.stability * 1.5;
      } else {
        stability := state.stability * (1.0 + (quality - 3) as real * 0.3);
      }
    } else {
      stability := state.stability * 0.8;
    }
    assert stability == NextStability(before, quality);
    stability := Clamp(MinStability, MaxStability, stability);
    var difficulty := state.difficulty - 0.2 + (4 - quality) as real * 0.1;
    difficulty := Clamp(0.1, 1.0, difficulty);
    var easeFactor := state.easeFactor + (0.1 - (5 - quality) as real * (0.08 + (5 - quality) as real * 0.02));
    assert easeFactor == before.easeFactor + EaseDelta(quality);
    easeFactor := Clamp(1.3, 2.5, easeFactor);
    var interval := CalculateInterval(stability, quality);
    assert before.(stability := stability, difficulty := difficulty, easeFactor := easeFactor,
       interval := interval, reviewCount := before.reviewCount + 1,
       lastReview := Some(now), dueDate := Some(now + interval * SecondsPerDay))
       == SubsequentReviewed(before, quality, now);
    state.stability := stability;
    state.difficulty := difficulty;
    state.easeFactor := easeFactor;
    state.interval := interval;
    state.reviewCount := state.reviewCount + 1;
    state.lastReview := Some(now);
    state.dueDate := Some(now + interval * SecondsPerDay);
    r := state;
  }

  /** `FSRSService.review_card`: updates the given state object and returns it. */
  method ReviewCard(state: FSRSState, quality: int, now: Time) returns (r: FSRSState)
    modifies state
    ensures r == state
    ensures state.Value() == Reviewed(old(state.Value()), quality, now)
  {
    if state.reviewCount == 0 {
      r := FirstReview(state, quality, now);
    } else {
      r := SubsequentReview(state, quality, now);
    }
  }

  // ---------------------------------------------------------------------
  // Properties of the schedule

  /** Every review adds exactly one to the review count. */
  lemma ReviewCountsOne(s: ReviewState, quality: int, now: Time)
    ensures Reviewed(s, quality, now).reviewCount == s.reviewCount + 1
  {
  }

  /** A review records `now` and puts the due date `interval` whole days later. */
  lemma ReviewSetsDueDate(s: ReviewState, quality: int, now: Time)
    ensures var r := Reviewed(s, quality, now);
      r.lastReview == Some(now) && r.interval >= 1
      && r.dueDate == Some(now + r.interval * SecondsPerDay)
  {
  }

  /** First-review stability lies in [0.2, 1.2] for every valid quality. */
  lemma FirstStabilityBounds(quality: int)
    requires 0 <= quality <= 5
    ensures 0.2 <= FirstStability(quality) <= 1.2
    ensures quality >= 3 ==> FirstStability(quality) == 0.4 * (quality - 2) as real
    ensures quality < 3 ==> FirstStability(quality) == 0.2
  {
  }

  /** The first review forgets the old numbers: difficulty (4 - q) / 4 clamped,
      ease factor reset to 2.5, review count 1. */
  lemma FirstReviewValues(s: ReviewState, quality: int, now: Time)
    requires s.reviewCount == 0
    ensures var r := Reviewed(s, quality, now);
      r.stability == FirstStability(quality)
      && r.difficulty == Clamp(0.1, 1.0, (4 - quality) as real / 4.0)
      && r.easeFactor == 2.5 && r.reviewCount == 1
  {
  }

  /** The first review sets every field, so its result does not depend on the
      numbers a never-reviewed state carried. */
  lemma FirstReviewForgetsOldState(s: ReviewState, t: ReviewState, quality: int, now: Time)
    requires s.reviewCount == 0 && t.reviewCount == 0
    ensures Reviewed(s, quality, now) == Reviewed(t, quality, now)
  {
  }

  /** From any state whose review count is not negative, a review of quality
      0..5 yields a state inside all the clamping bounds. */
  lemma ReviewIsWellScheduled(s: ReviewState, quality: int, now: Time)
    requires 0 <= quality <= 5
    requires s.reviewCount >= 0
    ensures WellScheduled(Reviewed(s, quality, now))
  {
    if s.reviewCount == 0 {
      FirstStabilityBounds(quality);
    }
  }

  /** Later-review stability before the clamp: x1.5 on the second review,
      x(1 + (q - 3) * 0.3) afterwards (so quality 3 keeps it), x0.8 on a failure. */
  lemma SubsequentStabilityRule(s: ReviewState, quality: int, now: Time)
    requires s.reviewCount != 0
    ensures var st := Reviewed(s, quality, now).stability;
      && (quality >= 3 && s.reviewCount == 1 ==> st == Clamp(MinStability, MaxStability, s.stability * 1.5))
      && (quality >= 3 && s.reviewCount != 1 ==>
            st == Clamp(MinStability, MaxStability, s.stability * (1.0 + (quality - 3) as real * 0.3)))
      && (quality == 3 && s.reviewCount != 1 ==> st == Clamp(MinStability, MaxStability, s.stability))
      && (quality < 3 ==> st == Clamp(MinStability, MaxStability, s.stability * 0.8))
  {
  }

  /** A good answer never lowers stability that is already in range, and a
      failure never raises it. */
  lemma StabilityDirection(s: ReviewState, quality: int, now: Time)
    requires s.reviewCount != 0
    requires MinStability <= s.stability <= MaxStability
    requires 0 <= quality <= 5
    ensures quality >= 3 ==> Reviewed(s, quality, now).stability >= s.stability
    ensures quality < 3 ==> Reviewed(s, quality, now).stability <= s.stability
  {
    var x := NextStability(s, quality);
    if quality >= 3 && s.reviewCount != 1 {
      assert (quality - 3) as real * 0.3 >= 0.0;
      assert x == s.stability + s.stability * ((quality - 3) as real * 0.3);
    }
  }

  /** The ease-factor change: +0.1 for quality 5, 0 for quality 4, negative for 3 and below. */
  lemma EaseDeltaSigns(quality: int)
    requires quality <= 5
    ensures quality == 5 ==> EaseDelta(quality) == 0.1
    ensures quality == 4 ==> EaseDelta(quality) == 0.0
    ensures quality <= 3 ==> EaseDelta(quality) < 0.0
  {
    if quality <= 3 {
      var d := (5 - quality) as real;
      assert d >= 2.0;
      assert d * (0.08 + d * 0.02) >= 2.0 * (0.08 + d * 0.02) by {
        assert (d - 2.0) * (0.08 + d * 0.02) >= 0.0;
      }
    }
  }

  /** An in-range ease factor does not decrease on quality 4 or 5 and does not
      increase on quality 3 or below. */
  lemma EaseFactorDirection(s: ReviewState, quality: int, now: Time)
    requires s.reviewCount != 0
    requires 1.3 <= s.easeFactor <= 2.5
    requires 0 <= quality <= 5
    ensures quality >= 4 ==> Reviewed(s, quality, now).easeFactor >= s.easeFactor
    ensures quality <= 3 ==> Reviewed(s, quality, now).easeFactor <= s.easeFactor
  {
    EaseDeltaSigns(quality);
  }

  /** The interval is one day after a failure, and never more than 730 days
      once stability is clamped. */
  lemma IntervalBounds(stability: real, quality: int)
    requires stability <= MaxStability
    ensures 1 <= CalculateInterval(stability, quality) <= 730
  {
    if quality >= 3 && 1.0 <= 2.0 * stability {
      var d := CalculateInterval(stability, quality);
      assert (d as real) <= 730.0;
    }
  }

  /** `max(1, int(x))` equals `max(1, floor(x))`: truncation and flooring differ
      only on negative numbers, where both give 1. */
  lemma MaxOneTruncateIsMaxOneFloor(x: real)
    ensures Max(1, Truncate(x)) == Max(1, x.Floor)
  {
    if x < 0.0 {
      assert Truncate(x) <= 0;
      assert x.Floor <= 0;
    }
  }

  /** Just after a review the card is not due; it becomes due at its due date. */
  lemma ReviewedNotDueYet(c: CardRecord, quality: int, now: Time)
    ensures !c.(fsrs := Reviewed(c.fsrs, quality, now)).IsDue(now)
    ensures var r := c.(fsrs := Reviewed(c.fsrs, quality, now));
      r.IsDue(now + r.fsrs.interval * SecondsPerDay)
      && now + SecondsPerDay <= r.fsrs.dueDate.value
  {
  }

  // ---------------------------------------------------------------------
  // The worked examples of the service's tests, from a fresh state

  /** Quality 4 on a fresh state: count 1, stability 0.8, difficulty 0.1, interval 1. */
  lemma FreshGoodReview(now: Time)
    ensures var r := Reviewed(FreshState, 4, now);
      r.reviewCount == 1 && r.stability == 0.8 && r.difficulty == 0.1
      && r.easeFactor == 2.5 && r.interval == 1
      && r.lastReview == Some(now) && r.dueDate == Some(now + SecondsPerDay)
  {
  }

  /** Quality 1 on a fresh state: stability 0.2, difficulty 0.75, interval 1. */
  lemma FreshPoorReview(now: Time)
    ensures var r := Reviewed(FreshState, 1, now);
      r.reviewCount == 1 && r.stability == 0.2 && r.difficulty == 0.75 && r.interval == 1
  {
  }

  /** Quality 4 and then 5: stability grows from 0.8 to 1.2, count 2, interval 2. */
  lemma FreshTwoGoodReviews(t1: Time, t2: Time)
    ensures var r1 := Reviewed(FreshState, 4, t1);
      var r2 := Reviewed(r1, 5, t2);
      r2.reviewCount == 2 && r1.stability == 0.8 && r2.stability == 1.2
      && r2.stability > r1.stability && r2.interval == 2
  {
    var r1 := Reviewed(FreshState, 4, t1);
    assert r1.stability == 0.8 && r1.reviewCount == 1;
    assert NextStability(r1, 5) == 1.2;
  }
}
