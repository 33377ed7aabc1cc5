/** The string operations the study and import code relies on: `str.strip()`,
    `str.lower()`, the substring test `a in b` and `str.split('\n')`. */
module Text {

  /** Python's `str.isspace()` for one character: the ASCII whitespace and
      separator controls, NEL, NO-BREAK SPACE and the Unicode space separators. */
  predicate IsSpace(c: char) {
    c == ' ' || ('\t' <= c <= '\r') || ('\U{1C}' <= c <= '\U{1F}')
    || c == '\U{85}' || c == '\U{A0}' || c == '\U{1680}'
    || ('\U{2000}' <= c <= '\U{200A}') || c == '\U{2028}' || c == '\U{2029}'
    || c == '\U{202F}' || c == '\U{205F}' || c == '\U{3000}'
  }

  predicate AllSpace(s: string) {
    forall k :: 0 <= k < |s| ==> IsSpace(s[k])
  }

  /** Number of whitespace characters `str.lstrip()` removes. */
  function LeadingSpace(s: string): (n: nat)
    ensures n <= |s|
    ensures forall k :: 0 <= k < n ==> IsSpace(s[k])
    ensures n < |s| ==> !IsSpace(s[n])
  {
    if |s| > 0 && IsSpace(s[0]) then
      var n := 1 + LeadingSpace(s[1..]);
      assert forall k :: 1 <= k < n ==> s[k] == s[1..][k - 1];
      n
    else 0
  }

  /** Number of whitespace characters `str.rstrip()` removes. */
  function TrailingSpace(s: string): (n: nat)
    ensures n <= |s|
    ensures forall k :: |s| - n <= k < |s| ==> IsSpace(s[k])
    ensures n < |s| ==> !IsSpace(s[|s| - n - 1])
  {
    if |s| > 0 && IsSpace(s[|s| - 1]) then
      var init := s[..|s| - 1];
      var n := 1 + TrailingSpace(init);
      assert forall k :: |s| - n <= k < |s| - 1 ==> s[k] == init[k];
      n
    else 0
  }

  /** `str.strip()`: `s` is `r` with whitespace-only text around it, and `r`
      neither begins nor ends with whitespace. */
  function Strip(s: string): (r: string)
    ensures |r| <= |s|
    ensures r == [] || (!IsSpace(r[0]) && !IsSpace(r[|r| - 1]))
    ensures exists pre: nat :: Surrounds(s, pre, r)
  {
    var lead := LeadingSpace(s);
    if lead == |s| then
      assert Surrounds(s, lead, []);
      []
    else
      var stop := |s| - TrailingSpace(s);
      assert lead < stop;
      var r := s[lead..stop];
      assert Surrounds(s, lead, r);
      r
  }

  /** `s` is `r` placed at offset `pre`, with only whitespace before and after it. */
  predicate Surrounds(s: string, pre: nat, r: string) {
    && pre + |r| <= |s| && s[pre..pre + |r|] == r
    && (forall k :: 0 <= k < pre ==> IsSpace(s[k]))
    && (forall k :: pre + |r| <= k < |s| ==> IsSpace(s[k]))
  }

  /** `LeadingSpace` is the length of the whitespace run that starts the string. */
  lemma LeadingSpaceIs(s: string, n: nat)
    requires n <= |s|
    requires forall k :: 0 <= k < n ==> IsSpace(s[k])
    requires n < |s| ==> !IsSpace(s[n])
    ensures LeadingSpace(s) == n
  {
    var lead := LeadingSpace(s);
    assert lead <= n;
    assert lead >= n;
  }

  /** `TrailingSpace` is the length of the whitespace run that ends the string. */
  lemma TrailingSpaceIs(s: string, n: nat)
    requires n <= |s|
    requires forall k :: |s| - n <= k < |s| ==> IsSpace(s[k])
    requires n < |s| ==> !IsSpace(s[|s| - n - 1])
    ensures TrailingSpace(s) == n
  {
    var trail := TrailingSpace(s);
    assert trail <= n;
    assert trail >= n;
  }

  /** There is only one way to strip a string: any decomposition into
      whitespace, a core without whitespace at its ends, and whitespace
      yields exactly `Strip`. */
  lemma StripUnique(s: string, pre: nat, r: string)
    requires Surrounds(s, pre, r)
    requires r == [] || (!IsSpace(r[0]) && !IsSpace(r[|r| - 1]))
    ensures Strip(s) == r
  {
    if r == [] {
      LeadingSpaceIs(s, |s|);
    } else {
      assert s[pre] == r[0] && s[pre + |r| - 1] == r[|r| - 1];
      LeadingSpaceIs(s, pre);
      TrailingSpaceIs(s, |s| - pre - |r|);
    }
  }

  /** Stripping twice is stripping once. */
  lemma StripIdempotent(s: string)
    ensures Strip(Strip(s)) == Strip(s)
  {
    var r := Strip(s);
    assert Surrounds(r, 0, r);
    StripUnique(r, 0, r);
  }

  /** Whitespace added around a string does not change what `strip` returns. */
  lemma {:induction false} StripIgnoresPadding(p: string, u: string, q: string)
    requires AllSpace(p) && AllSpace(q)
    ensures Strip(p + u + q) == Strip(u)
  {
    var r := Strip(u);
    var pre: nat :| Surrounds(u, pre, r);
    var s := p + u + q;
    var start := |p| + pre;
    assert s[start..start + |r|] == u[pre..pre + |r|];
    assert forall k :: 0 <= k < start ==> IsSpace(s[k]) by {
      forall k | 0 <= k < start ensures IsSpace(s[k]) {
        if k < |p| { assert s[k] == p[k]; } else { assert s[k] == u[k - |p|]; }
      }
    }
    assert forall k :: start + |r| <= k < |s| ==> IsSpace(s[k]) by {
      forall k | start + |r| <= k < |s| ensures IsSpace(s[k]) {
        if k < |p| + |u| { assert s[k] == u[k - |p|]; } else { assert s[k] == q[k - |p| - |u|]; }
      }
    }
    StripUnique(s, start, r);
  }

  /** A string strips to nothing exactly when it is all whitespace. */
  lemma StripEmptyIffBlank(s: string)
    ensures Strip(s) == [] <==> AllSpace(s)
  {
    if AllSpace(s) {
      StripUnique(s, 0, []);
    } else {
      var k :| 0 <= k < |s| && !IsSpace(s[k]);
      var r := Strip(s);
      var pre: nat :| Surrounds(s, pre, r);
      assert pre <= k < pre + |r|;
    }
  }

  /** `str.lower()` on one character: ASCII and the basic Cyrillic block
      (the only letters the model maps; every other character is kept). */
  function LowerChar(c: char): (d: char)
    ensures IsUpper(c) ==> d != c
    ensures !IsUpper(c) ==> d == c
    ensures !IsUpper(d)
  {
    if 'A' <= c <= 'Z' || '\U{410}' <= c <= '\U{42F}' then (c as int + 32) as char
    else if '\U{400}' <= c <= '\U{40F}' then (c as int + 80) as char
    else c
  }

  predicate IsUpper(c: char) {
    'A' <= c <= 'Z' || '\U{400}' <= c <= '\U{42F}'
  }

  function Lower(s: string): (r: string)
    ensures |r| == |s|
    ensures forall k :: 0 <= k < |r| ==> !IsUpper(r[k])
    ensures forall k :: 0 <= k < |s| && !IsUpper(s[k]) ==> r[k] == s[k]
  {
    seq(|s|, k requires 0 <= k < |s| => LowerChar(s[k]))
  }

  /** Lower-casing is idempotent. */
  lemma LowerIdempotent(s: string)
    ensures Lower(Lower(s)) == Lower(s)
  {
  }

  /** `needle` occurs in `hay` starting at offset `i`. */
  predicate OccursAt(hay: string, needle: string, i: int) {
    0 <= i && i + |needle| <= |hay| && hay[i..i + |needle|] == needle
  }

  /** Python's `needle in hay` for strings: the needle occurs at some offset. */
  predicate Contains(hay: string, needle: string) {
    exists i :: 0 <= i <= |hay| && OccursAt(hay, needle, i)
  }

  /** A string that occurs in another is no longer, and one as long is the same string. */
  lemma ContainsNoLonger(hay: string, needle: string)
    requires Contains(hay, needle)
    ensures |needle| <= |hay|
    ensures |needle| == |hay| ==> needle == hay
  {
    var i :| 0 <= i <= |hay| && OccursAt(hay, needle, i);
    if |needle| == |hay| {
      assert i == 0 && hay[0..|hay|] == hay;
    }
  }

  /** The empty string occurs in every string. */
  lemma EmptyContained(hay: string)
    ensures Contains(hay, [])
  {
    assert OccursAt(hay, [], 0);
  }

  /** Every string occurs in itself. */
  lemma ContainsSelf(s: string)
    ensures Contains(s, s)
  {
    assert s[0..|s|] == s;
    assert OccursAt(s, s, 0);
  }

  /** Python's `s.split(sep)`: the pieces between separators, always at least one. */
  function Split(s: string, sep: char): (r: seq<string>)
    ensures |r| >= 1
    ensures forall k :: 0 <= k < |r| ==> sep !in r[k]
  {
    if s == [] then [[]]
    else
      var rest := Split(s[1..], sep);
      if s[0] == sep then [[]] + rest else [[s[0]] + rest[0]] + rest[1..]
  }

  /** `sep.join(parts)`. */
  function Join(parts: seq<string>, sep: char): string
    requires |parts| >= 1
  {
    if |parts| == 1 then parts[0] else parts[0] + [sep] + Join(parts[1..], sep)
  }

  /** Joining the pieces of a split gives back the original text. */
  lemma {:induction false} JoinSplit(s: string, sep: char)
    ensures Join(Split(s, sep), sep) == s
  {
    if s != [] {
      var rest := Split(s[1..], sep);
      JoinSplit(s[1..], sep);
      if s[0] != sep {
        var r := Split(s, sep);
        assert r[0] == [s[0]] + rest[0] && r[1..] == rest[1..];
        if |rest| == 1 {
          assert Join(r, sep) == [s[0]] + rest[0];
        } else {
          assert Join(rest, sep) == rest[0] + [sep] + Join(rest[1..], sep);
          assert Join(r, sep) == [s[0]] + rest[0] + [sep] + Join(rest[1..], sep);
        }
        assert s == [s[0]] + s[1..];
      } else {
        assert s == [sep] + s[1..];
      }
    }
  }

  /** Splitting a join of separator-free pieces gives back the pieces. */
  lemma {:induction false} SplitJoin(parts: seq<string>, sep: char)
    requires |parts| >= 1
    requires forall k :: 0 <= k < |parts| ==> sep !in parts[k]
    ensures Split(Join(parts, sep), sep) == parts
  {
    if |parts| == 1 {
      SplitWithoutSep(parts[0], sep);
    } else {
      SplitJoin(parts[1..], sep);
      SplitPrefixed(parts[0], Join(parts[1..], sep), sep);
      assert [parts[0]] + parts[1..] == parts;
    }
  }

  lemma {:induction false} SplitWithoutSep(s: string, sep: char)
    requires sep !in s
    ensures Split(s, sep) == [s]
  {
    if s != [] {
      SplitWithoutSep(s[1..], sep);
      assert [s[0]] + s[1..] == s;
    }
  }

  /** A separator-free piece followed by a separator splits off as one piece. */
  lemma {:induction false} SplitPrefixed(a: string, tail: string, sep: char)
    requires sep !in a
    ensures Split(a + [sep] + tail, sep) == [a] + Split(tail, sep)
  {
    var s := a + [sep] + tail;
    if a == [] {
      assert s == [sep] + tail;
      assert s[1..] == tail;
    } else {
      assert s[1..] == a[1..] + [sep] + tail;
      SplitPrefixed(a[1..], tail, sep);
      assert [a[0]] + a[1..] == a;
    }
  }
}
