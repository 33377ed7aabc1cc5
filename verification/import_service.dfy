/** The card import of infrastructure/services/import_service.py after text
    extraction: Word paragraphs and OCR lines go through one pairing rule
    (skip blank lines, then read them two by two as front and back), and
    spreadsheet rows through a header-skipping filter. */
module Import {
  import opened Common
  import opened Text

  /** An imported card: (front, back). */
  type Pair = (string, string)

  /** A spreadsheet cell: None for an empty cell, otherwise its text. */
  type Cell = Option<string>

  /** `[line.strip() for line in lines if line.strip()]`. */
  function NonBlankLines(lines: seq<string>): (r: seq<string>)
    ensures |r| <= |lines|
    ensures forall k :: 0 <= k < |r| ==> r[k] != [] && Strip(r[k]) == r[k]
  {
    if lines == [] then []
    else
      var init := NonBlankLines(lines[..|lines| - 1]);
      var text := Strip(lines[|lines| - 1]);
      StripIdempotent(lines[|lines| - 1]);
      if text == [] then init else init + [text]
  }

  /** Consecutive lines read two by two; an odd last line is dropped. */
  function PairUp(lines: seq<string>): (r: seq<Pair>)
    ensures |r| == |lines| / 2
  {
    seq(|lines| / 2, k requires 0 <= k < |lines| / 2 => (lines[2 * k], lines[2 * k + 1]))
  }

  /** The lines of a list of pairs, front before back. */
  function Flatten(pairs: seq<Pair>): (r: seq<string>)
    ensures |r| == 2 * |pairs|
  {
    if pairs == [] then [] else Flatten(pairs[..|pairs| - 1]) + [pairs[|pairs| - 1].0, pairs[|pairs| - 1].1]
  }

  /** Pairing loses nothing but an odd last line: flattening the pairs gives
      the lines back, without that line. */
  lemma {:induction false} FlattenPairUp(lines: seq<string>)
    ensures Flatten(PairUp(lines)) == lines[..2 * (|lines| / 2)]
    decreases |lines|
  {
    var n := |lines| / 2;
    if n > 0 {
      var init := lines[..2 * n - 2];
      FlattenPairUp(init);
      assert PairUp(lines)[..n - 1] == PairUp(init);
      assert lines[..2 * n] == lines[..2 * n - 2] + [lines[2 * n - 2], lines[2 * n - 1]];
      assert init[..2 * (|init| / 2)] == init;
    }
  }

  /** Pairing the lines is undone by flattening when there are evenly many. */
  lemma PairUpFlatten(pairs: seq<Pair>)
    ensures PairUp(Flatten(pairs)) == pairs
  {
    FlattenPairUp(Flatten(pairs));
    assert Flatten(pairs)[..2 * |pairs|] == Flatten(pairs);
    FlattenIndex(pairs);
  }

  /** Where each front and back of a list of pairs sits once flattened. */
  lemma {:induction false} FlattenIndex(pairs: seq<Pair>)
    ensures forall k :: 0 <= k < |pairs| ==> Flatten(pairs)[2 * k] == pairs[k].0 && Flatten(pairs)[2 * k + 1] == pairs[k].1
    decreases |pairs|
  {
    if pairs != [] {
      FlattenIndex(pairs[..|pairs| - 1]);
    }
  }

  /** One more line either waits for its partner or completes a pair. */
  lemma PairUpSnoc(lines: seq<string>, line: string)
    ensures |lines| % 2 == 0 ==> PairUp(lines + [line]) == PairUp(lines)
    ensures |lines| % 2 == 1 ==> PairUp(lines + [line]) == PairUp(lines) + [(lines[|lines| - 1], line)]
  {
    var longer := lines + [line];
    if |lines| % 2 == 1 {
      assert |longer| / 2 == |lines| / 2 + 1;
      assert PairUp(longer)[|lines| / 2] == (lines[|lines| - 1], line);
    }
  }

  /** The imported cards of a text: every front and back is non-empty and
      already stripped, and there are half as many as non-blank lines. */
  lemma ImportedPairsAreClean(lines: seq<string>)
    ensures var pairs := PairUp(NonBlankLines(lines));
      && |pairs| == |NonBlankLines(lines)| / 2
      && forall k :: 0 <= k < |pairs| ==>
           pairs[k].0 != [] && pairs[k].1 != [] && Strip(pairs[k].0) == pairs[k].0 && Strip(pairs[k].1) == pairs[k].1
  {
    var clean := NonBlankLines(lines);
    assert forall k :: 0 <= k < |clean| / 2 ==> 2 * k + 1 < |clean|;
  }

  /** The non-blank lines of a longer list extend those of a prefix. */
  lemma NonBlankLinesSnoc(lines: seq<string>, i: nat)
    requires i < |lines|
    ensures NonBlankLines(lines[..i + 1])
         == NonBlankLines(lines[..i]) + (if Strip(lines[i]) == [] then [] else [Strip(lines[i])])
  {
    assert lines[..i + 1][..i] == lines[..i];
  }

  /** The front still waiting for its back after reading `lines`. */
  function Pending(lines: seq<string>): (r: Option<string>)
    ensures |lines| == 2 * |PairUp(lines)| + (if r.Some? then 1 else 0)
    ensures r.Some? ==> r.value == lines[|lines| - 1]
  {
    if |lines| % 2 == 1 then Some(lines[|lines| - 1]) else None
  }

  /** Reading one more line: it becomes the pending front, or it completes
      a card with the pending front. */
  lemma PendingStep(seen: seq<string>, line: string)
    ensures Pending(seen).None? ==> PairUp(seen + [line]) == PairUp(seen) && Pending(seen + [line]) == Some(line)
    ensures Pending(seen).Some? ==>
      PairUp(seen + [line]) == PairUp(seen) + [(Pending(seen).value, line)] && Pending(seen + [line]).None?
  {
    PairUpSnoc(seen, line);
  }

  /** The loop of `import_from_word` over the paragraph texts: a non-blank
      paragraph becomes the pending front, or completes a card with it. */
  method ImportFromWord(paragraphs: seq<string>) returns (cards: seq<Pair>)
    ensures cards == PairUp(NonBlankLines(paragraphs))
  {
    cards := [];
    var currentFront: Option<string> := None;
    ghost var seen: seq<string> := [];
    for i := 0 to |paragraphs|
      invariant seen == NonBlankLines(paragraphs[..i])
      invariant cards == PairUp(seen)
      invariant currentFront == Pending(seen)
    {
      NonBlankLinesSnoc(paragraphs, i);
      var text := Strip(paragraphs[i]);
      if text == [] {
        continue;
      }
      PendingStep(seen, text);
      if currentFront.None? {
        currentFront := Some(text);
      } else {
        cards := cards + [(currentFront.value, text)];
        currentFront := None;
      }
      seen := seen + [text];
    }
    assert paragraphs[..|paragraphs|] == paragraphs;
  }

  /** The loop of `import_from_image` over lines that are already clean. */
  method PairLines(lines: seq<string>) returns (cards: seq<Pair>)
    ensures cards == PairUp(lines)
  {
    cards := [];
    var currentFront: Option<string> := None;
    for i := 0 to |lines|
      invariant cards == PairUp(lines[..i])
      invariant currentFront == Pending(lines[..i])
    {
      assert lines[..i + 1] == lines[..i] + [lines[i]];
      PendingStep(lines[..i], lines[i]);
      if currentFront.None? {
        currentFront := Some(lines[i]);
      } else {
        cards := cards + [(currentFront.value, lines[i])];
        currentFront := None;
      }
    }
    assert lines[..|lines|] == lines;
  }

  /** `import_from_image` once the OCR text is read: its non-blank lines,
      split at newlines, paired up. */
  method ImportFromImage(text: string) returns (cards: seq<Pair>)
    ensures cards == PairUp(NonBlankLines(Split(text, '\n')))
  {
    var lines := NonBlankLines(Split(text, '\n'));
    cards := PairLines(lines);
  }

  // ---------------------------------------------------------------------
  // Spreadsheets

  /** A cell Python counts as true: present and not the empty string. */
  predicate Truthy(c: Cell) {
    c.Some? && c.value != []
  }

  /** One spreadsheet row: a card when it has two cells that are present and
      not blank, stripped. */
  function RowCard(row: seq<Cell>): (r: Option<Pair>)
    ensures r.Some? <==> |row| >= 2 && row[0].Some? && row[1].Some?
                         && !AllSpace(row[0].value) && !AllSpace(row[1].value)
    ensures r.Some? ==> r.value == (Strip(row[0].value), Strip(row[1].value))
  {
    if |row| >= 2 && Truthy(row[0]) && Truthy(row[1]) then
      var front := Strip(row[0].value);
      var back := Strip(row[1].value);
      StripEmptyIffBlank(row[0].value);
      StripEmptyIffBlank(row[1].value);
      if front != [] && back != [] then Some((front, back)) else None
    else
      if |row| >= 2 && row[0].Some? && row[1].Some? then
        StripEmptyIffBlank(row[0].value);
        StripEmptyIffBlank(row[1].value);
        None
      else None
  }

  /** The cards of a run of rows, in row order. */
  function RowCards(rows: seq<seq<Cell>>): (r: seq<Pair>)
    ensures |r| <= |rows|
  {
    if rows == [] then []
    else
      var last := RowCard(rows[|rows| - 1]);
      RowCards(rows[..|rows| - 1]) + (if last.Some? then [last.value] else [])
  }

  /** Rows are read independently: the cards of two runs are those of each. */
  lemma {:induction false} RowCardsAppend(a: seq<seq<Cell>>, b: seq<seq<Cell>>)
    ensures RowCards(a + b) == RowCards(a) + RowCards(b)
    decreases |b|
  {
    if b == [] {
      assert a + b == a;
    } else {
      var init := b[..|b| - 1];
      assert (a + b)[..|a + b| - 1] == a + init;
      RowCardsAppend(a, init);
    }
  }

  /** Every imported spreadsheet card has a non-empty, stripped front and back. */
  lemma {:induction false} RowCardsAreClean(rows: seq<seq<Cell>>)
    ensures forall k :: 0 <= k < |RowCards(rows)| ==>
      var p := RowCards(rows)[k];
      p.0 != [] && p.1 != [] && Strip(p.0) == p.0 && Strip(p.1) == p.1
    decreases |rows|
  {
    if rows != [] {
      RowCardsAreClean(rows[..|rows| - 1]);
      var row := rows[|rows| - 1];
      if RowCard(row).Some? {
        StripEmptyIffBlank(row[0].value);
        StripEmptyIffBlank(row[1].value);
        StripIdempotent(row[0].value);
        StripIdempotent(row[1].value);
      }
    }
  }

  /** The cards of a sheet: every row but the first (the header). */
  function SheetCards(rows: seq<seq<Cell>>): seq<Pair> {
    if rows == [] then [] else RowCards(rows[1..])
  }

  /** The header row never becomes a card, and a sheet yields at most one
      card per row below it. */
  lemma HeaderIgnored(header: seq<Cell>, body: seq<seq<Cell>>, other: seq<Cell>)
    ensures SheetCards([header] + body) == SheetCards([other] + body)
    ensures |SheetCards([header] + body)| <= |body|
  {
    assert ([header] + body)[1..] == body;
    assert ([other] + body)[1..] == body;
  }

  /** The loop of `import_from_excel` over `iter_rows(min_row=2)`. */
  method ImportFromExcel(rows: seq<seq<Cell>>) returns (cards: seq<Pair>)
    ensures cards == SheetCards(rows)
  {
    cards := [];
    if rows == [] {
      return;
    }
    for i := 1 to |rows|
      invariant cards == RowCards(rows[1..i])
    {
      var row := rows[i];
      assert rows[1..i + 1][..i - 1] == rows[1..i];
      if |row| >= 2 && Truthy(row[0]) && Truthy(row[1]) {
        var front := Strip(row[0].value);
        var back := Strip(row[1].value);
        if front != [] && back != [] {
          cards := cards + [(front, back)];
        }
      }
    }
    assert rows[1..|rows|] == rows[1..];
  }
}
