/** `Chapter::covered_words`, the inverse of a highlight's range. */
module KepubCovered {
  import opened Basics
  import opened Text
  import opened Utf16
  import opened KepubWords
  import opened KepubText
  import opened KepubPassages
  import opened KepubHighlight
  import opened SpanLocation

  /** The word has some text between the two keys. */
  predicate Overlaps(w: Word, startSpan: nat, startChar: nat, endSpan: nat, endChar: nat) {
    KeyLess(w.span, w.start, endSpan, endChar) && KeyLess(startSpan, startChar, w.span, w.end)
  }

  /** What `covered_words` answers: the first and the last word `range` overlaps, or nothing. */
  predicate Covers(chapter: Chapter, range: SpanRange, covered: Option<(nat, nat)>) {
    var s, e := Position(chapter.spans, range.startSpan, 0), Position(chapter.spans, range.endSpan, 0);
    if range.chapter != chapter.href || s.None? || e.None? then covered.None?
    else
      match covered
      case None =>
        forall n :: 0 <= n < |chapter.words| ==>
          !Overlaps(chapter.words[n], s.value, range.startChar, e.value, range.endChar)
      case Some((i, j)) =>
        && i <= j < |chapter.words|
        && Overlaps(chapter.words[i], s.value, range.startChar, e.value, range.endChar)
        && Overlaps(chapter.words[j], s.value, range.startChar, e.value, range.endChar)
        && forall n :: 0 <= n < |chapter.words| && (n < i || j < n) ==>
             !Overlaps(chapter.words[n], s.value, range.startChar, e.value, range.endChar)
  }

  /** `Chapter::covered_words`. */
  method CoveredWords(chapter: Chapter, range: SpanRange) returns (covered: Option<(nat, nat)>)
    ensures Covers(chapter, range, covered)
  {
    if range.chapter != chapter.href {
      return None;
    }
    var s := Position(chapter.spans, range.startSpan, 0);
    var e := Position(chapter.spans, range.endSpan, 0);
    if s.None? || e.None? {
      return None;
    }
    covered := None;
    for index := 0 to |chapter.words|
      invariant covered.None? ==>
                  forall n :: 0 <= n < index ==>
                    !Overlaps(chapter.words[n], s.value, range.startChar, e.value, range.endChar)
      invariant covered.Some? ==>
                  && covered.value.0 <= covered.value.1 < index
                  && Overlaps(chapter.words[covered.value.0], s.value, range.startChar, e.value, range.endChar)
                  && Overlaps(chapter.words[covered.value.1], s.value, range.startChar, e.value, range.endChar)
                  && forall n :: 0 <= n < index && (n < covered.value.0 || covered.value.1 < n) ==>
                       !Overlaps(chapter.words[n], s.value, range.startChar, e.value, range.endChar)
    {
      var word := chapter.words[index];
      if Overlaps(word, s.value, range.startChar, e.value, range.endChar) {
        covered := match covered
          case Some((first, _)) => Some((first, index))
          case None => Some((index, index));
      }
    }
  }

  // ------------------------------------------------- what a range touches

  /** UTF-16 unit `u` of span `m` lies in the range from `startChar` of one span to `endChar` of another. */
  predicate InRange(m: nat, u: nat, startSpan: nat, startChar: nat, endSpan: nat, endChar: nat) {
    && (startSpan < m || (startSpan == m && startChar <= u))
    && (m < endSpan || (m == endSpan && u < endChar))
  }

  /** Some of the word's text lies in the range, be it one unit. */
  predicate Touched(w: Word, startSpan: nat, startChar: nat, endSpan: nat, endChar: nat) {
    exists u :: w.start <= u < w.end && InRange(w.span, u, startSpan, startChar, endSpan, endChar)
  }

  /**
   * A word counts as covered exactly when some of its text lies in the range, so a word cut midway counts. A range
   * that ends where or before it starts holds no text, and covers only a word both its ends lie strictly inside.
   */
  lemma CoveredIsTouched(w: Word, startSpan: nat, startChar: nat, endSpan: nat, endChar: nat)
    requires w.start < w.end
    ensures (startSpan < endSpan || (startSpan == endSpan && startChar < endChar)) ==>
              (Overlaps(w, startSpan, startChar, endSpan, endChar) <==> Touched(w, startSpan, startChar, endSpan, endChar))
    ensures !(startSpan < endSpan || (startSpan == endSpan && startChar < endChar)) ==>
              !Touched(w, startSpan, startChar, endSpan, endChar)
              && (Overlaps(w, startSpan, startChar, endSpan, endChar)
                  <==> startSpan == endSpan == w.span && w.start < endChar <= startChar < w.end)
  {
    var u := if startSpan == w.span && w.start < startChar then startChar else w.start;
    if Overlaps(w, startSpan, startChar, endSpan, endChar) && (startSpan < endSpan || (startSpan == endSpan && startChar < endChar)) {
      assert w.start <= u < w.end && InRange(w.span, u, startSpan, startChar, endSpan, endChar);
    }
  }

  /** The words answered are exactly those the range touches, when it holds any text at all. */
  lemma CoversTouched(chapter: Chapter, range: SpanRange, covered: Option<(nat, nat)>, s: nat, e: nat)
    requires Parsed(chapter) && Covers(chapter, range, covered) && range.chapter == chapter.href
    requires FirstOfItsId(chapter.spans, s) && chapter.spans[s].id == range.startSpan
    requires FirstOfItsId(chapter.spans, e) && chapter.spans[e].id == range.endSpan
    requires s < e || (s == e && range.startChar < range.endChar)
    ensures forall n :: 0 <= n < |chapter.words| ==>
              (Touched(chapter.words[n], s, range.startChar, e, range.endChar)
               <==> covered.Some? && covered.value.0 <= n <= covered.value.1)
  {
    FirstIsFound(chapter.spans, s);
    FirstIsFound(chapter.spans, e);
    var words := chapter.words;
    forall n | 0 <= n < |words|
      ensures Touched(words[n], s, range.startChar, e, range.endChar)
              <==> covered.Some? && covered.value.0 <= n <= covered.value.1
    {
      WordExtent(chapter.spans, n);
      CoveredIsTouched(words[n], s, range.startChar, e, range.endChar);
      if covered.Some? && covered.value.0 < n < covered.value.1 {
        BetweenIsCovered(chapter, covered.value.0, n, covered.value.1, s, range.startChar, e, range.endChar);
      }
    }
  }

  lemma BetweenIsCovered(chapter: Chapter, i: nat, n: nat, j: nat, s: nat, startChar: nat, e: nat, endChar: nat)
    requires Parsed(chapter) && i < n < j < |chapter.words|
    requires Overlaps(chapter.words[i], s, startChar, e, endChar) && Overlaps(chapter.words[j], s, startChar, e, endChar)
    ensures Overlaps(chapter.words[n], s, startChar, e, endChar)
  {
    WordsOrdered(chapter.spans, |chapter.spans|, i, n);
    WordsOrdered(chapter.spans, |chapter.spans|, n, j);
    WordExtent(chapter.spans, n);
  }

  /** Every span holding a word is the first one with its id. */
  predicate Anchored(chapter: Chapter) {
    forall n :: 0 <= n < |chapter.words| ==> FirstOfItsId(chapter.spans, chapter.words[n].span)
  }

  lemma RangeCovers(chapter: Chapter, i: nat, j: nat)
    requires Parsed(chapter) && Measurable(chapter.spans) && Anchored(chapter) && i <= j < |chapter.words|
    ensures Covers(chapter, RangeOf(chapter, i, j), Some((i, j)))
  {
    var spans, words := chapter.spans, chapter.words;
    WordsCuttable(spans, i, j);
    var first, last := words[i], words[j];
    WordExtent(spans, i);
    WordExtent(spans, j);
    FirstIsFound(spans, first.span);
    FirstIsFound(spans, last.span);
    if i < j { WordsOrdered(spans, |spans|, i, j); }
    forall n | 0 <= n < |words| && (n < i || j < n)
      ensures !Overlaps(words[n], first.span, first.start, last.span, last.end)
    {
      if n < i { WordsOrdered(spans, |spans|, n, i); } else { WordsOrdered(spans, |spans|, j, n); }
    }
  }

  /** A highlight of words `i..=j`, its location stored and decoded again, resolves to exactly those words. */
  ghost predicate Resolves(chapter: Chapter, i: nat, j: nat)
    requires Parsed(chapter) && Measurable(chapter.spans) && i <= j < |chapter.words|
  {
    var stored := SpanRangeOf(LocationJson(Some(RangeOf(chapter, i, j))));
    stored.Some? && Covers(chapter, stored.value, Some((i, j)))
  }

  lemma ElsewhereIsMissed(chapter: Chapter, n: nat)
    requires Parsed(chapter) && Measurable(chapter.spans) && n < |chapter.words|
    requires !FirstOfItsId(chapter.spans, chapter.words[n].span)
    ensures !Covers(chapter, RangeOf(chapter, n, n), Some((n, n)))
  {
    WordExtent(chapter.spans, n);
    WordsCuttable(chapter.spans, n, n);
    var k := chapter.words[n].span;
    FirstIsFound(chapter.spans, k);
    assert Position(chapter.spans, chapter.spans[k].id, 0).value < k;
  }

  /**
   * Every stored highlight resolves to its own words exactly when every span with a word is the first with
   * its id (as distinct ids ensure).
   */
  lemma StoredHighlightResolves(chapter: Chapter)
    requires Parsed(chapter) && Measurable(chapter.spans)
    ensures (forall i: nat, j: nat :: i <= j < |chapter.words| ==> Resolves(chapter, i, j)) <==> Anchored(chapter)
  {
    if Anchored(chapter) {
      forall i: nat, j: nat | i <= j < |chapter.words| ensures Resolves(chapter, i, j) {
        RangeCovers(chapter, i, j);
        LocationRoundTrip(Some(RangeOf(chapter, i, j)));
      }
    } else {
      var n: nat :| n < |chapter.words| && !FirstOfItsId(chapter.spans, chapter.words[n].span);
      ElsewhereIsMissed(chapter, n);
      LocationRoundTrip(Some(RangeOf(chapter, n, n)));
      assert !Resolves(chapter, n, n);
    }
  }

  /** Two spans of one word each, under one id. */
  const REPEATED: seq<Span> := [Span("kobo.1.1", "a"), Span("kobo.1.1", "b")]

  lemma RepeatedWords()
    ensures AllWords(REPEATED) == [Word(0, "a", 0, 1, false), Word(1, "b", 0, 1, true)] && Measurable(REPEATED)
  {
    assert SpanWords(0, "a", 1, false) == [Word(0, "a", 0, 1, false)];
    assert LastText(REPEATED, 1) == Some(0);
    assert SpanWords(1, "b", 1, true) == [Word(1, "b", 0, 1, true)];
    assert ChapterWords(REPEATED, 1, false) == [Word(0, "a", 0, 1, false)];
    EncodeUnits("a");
    EncodeUnits("b");
  }

  /** The failing case: a highlight of the second word is stored, and resolves to the first. */
  lemma RepeatedIdExample(chapter: Chapter)
    requires chapter.spans == REPEATED && Parsed(chapter)
    ensures Measurable(chapter.spans) && |chapter.words| == 2
    ensures var stored := SpanRangeOf(LocationJson(Some(RangeOf(chapter, 1, 1))));
            stored.Some? && Covers(chapter, stored.value, Some((0, 0)))
  {
    RepeatedWords();
    LocationRoundTrip(Some(RangeOf(chapter, 1, 1)));
    assert Position(REPEATED, "kobo.1.1", 0) == Some(0);
  }

  /** One span of one word. */
  const ONE_WORD: seq<Span> := [Span("kobo.1.1", "ab")]

  lemma TwoLetters(x: char, y: char)
    requires !IsSpace(x) && !IsSpace(y) && x as int < 0x80 && y as int < 0x80
    ensures SpanWords(0, [x, y], 2, false) == [Word(0, [x, y], 0, 2, false)]
  {
    var t := [x, y];
    StepOfSpan(0, t, 0, false);
    assert SpanWords(0, t, 1, false) == [Word(0, [x], 0, 1, false)];
    StepOfSpan(0, t, 1, false);
    assert [x] + [y] == t;
  }

  lemma OneWordOnly()
    ensures AllWords(ONE_WORD) == [Word(0, "ab", 0, 2, false)]
  {
    TwoLetters('a', 'b');
    assert ChapterWords(ONE_WORD, 0, false) == [];
    assert !CanGlue(ONE_WORD, 0, false);
    assert ChapterWords(ONE_WORD, 1, false) == [] + SpanWords(0, "ab", 2, false);
  }

  /** The failing case: a range that starts and ends between the two letters of "ab" covers the word. */
  lemma EmptyRangeExample(chapter: Chapter)
    requires chapter.spans == ONE_WORD && Parsed(chapter)
    ensures Covers(chapter, SpanRange(chapter.href, "kobo.1.1", 1, "kobo.1.1", 1), Some((0, 0)))
    ensures |chapter.words| == 1 && !Touched(chapter.words[0], 0, 1, 0, 1)
  {
    OneWordOnly();
    assert Position(ONE_WORD, "kobo.1.1", 0) == Some(0);
    CoveredIsTouched(chapter.words[0], 0, 1, 0, 1);
  }

  /** Only one answer fits a range. */
  lemma CoversOnce(chapter: Chapter, range: SpanRange, x: Option<(nat, nat)>, y: Option<(nat, nat)>)
    requires Covers(chapter, range, x) && Covers(chapter, range, y)
    ensures x == y
  {
    if x.Some? && y.Some? {
      assert x.value.0 == y.value.0 && x.value.1 == y.value.1;
    }
  }
}
