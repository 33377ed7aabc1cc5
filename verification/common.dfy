/** Shared vocabulary of the flashcard service model: identifiers, timestamps,
    optional values and the use cases' error results. */
module Common {

  /** A UUID. Fresh identifiers (uuid4) are supplied by the caller. */
  type Id = int

  /** A UTC timestamp in whole seconds; every clock read becomes a parameter. */
  type Time = int

  /** Length of `timedelta(days=1)` in the model's time unit. */
  const SecondsPerDay: int := 86400

  datatype Option<T> = None | Some(value: T) {
    /** `new if new is not None else old` — the partial-update rule. */
    function OrElse(fallback: T): T {
      if Some? then value else fallback
    }
  }

  /** The ValueErrors the use cases raise, one constructor per message. */
  datatype Error =
    | InvalidQuality     // "Quality must be between 0 and 5"
    | CardNotFound       // "Card with id ... not found"
    | DeckNotFound       // "Deck with id ... not found"
    | SessionNotFound    // "Session with id ... not found"

  datatype Result<T> = Ok(value: T) | Err(error: Error)

  function Min(a: int, b: int): int { if a <= b then a else b }
  function Max(a: int, b: int): int { if a >= b then a else b }

  /** Length of the Python slice `s[:stop]` for a list of length `n`. */
  function SliceLength(n: nat, stop: int): (r: nat)
    ensures r <= n
    ensures 0 <= stop ==> r == Min(n, stop)
    ensures stop < 0 ==> r == Max(0, n + stop)
  {
    if stop >= 0 then Min(n, stop) else Max(0, n + stop)
  }

  /** The Python slice `s[:stop]`, negative `stop` counting from the end. */
  function SliceTo<T>(s: seq<T>, stop: int): (r: seq<T>)
    ensures |r| == SliceLength(|s|, stop)
    ensures r == s[..|r|]
  {
    s[..SliceLength(|s|, stop)]
  }

  /** All elements are pairwise different. */
  predicate Distinct<T(==)>(s: seq<T>) {
    forall i, j :: 0 <= i < j < |s| ==> s[i] != s[j]
  }

  /** A sequence has no repeated element exactly when every count in its multiset is at most one. */
  lemma {:induction false} DistinctIffSingleCounts<T>(s: seq<T>)
    ensures Distinct(s) <==> forall x :: multiset(s)[x] <= 1
  {
    if s != [] {
      var rest := s[1..];
      assert s == [s[0]] + rest;
      assert multiset(s) == multiset{s[0]} + multiset(rest);
      DistinctIffSingleCounts(rest);
      if Distinct(s) {
        assert Distinct(rest) by {
          forall i, j | 0 <= i < j < |rest| ensures rest[i] != rest[j] {
            assert rest[i] == s[i + 1] && rest[j] == s[j + 1];
          }
        }
      } else {
        var i, j :| 0 <= i < j < |s| && s[i] == s[j];
        if i == 0 {
          assert s[j] == rest[j - 1];
          assert multiset(rest)[s[0]] >= 1;
          assert multiset(s)[s[0]] >= 2;
        } else {
          assert rest[i - 1] == rest[j - 1];
          assert !Distinct(rest);
          var x :| multiset(rest)[x] > 1;
          assert multiset(s)[x] > 1;
        }
      }
    }
  }

  /** Keeping some of the elements, in any order, keeps a sequence free of repetitions. */
  lemma SubMultisetKeepsDistinct<T>(s: seq<T>, t: seq<T>)
    requires multiset(t) <= multiset(s)
    requires Distinct(s)
    ensures Distinct(t)
  {
    DistinctIffSingleCounts(s);
    DistinctIffSingleCounts(t);
  }
}
