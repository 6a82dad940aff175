/** `Percent::of`, `Kepub::bookmark` and its inverse `Kepub::word_at_percent`. */
module KepubProgress {
  import opened KepubWords
  import opened KepubText
  import opened KepubPassages
  import opened KepubHighlight

  /** `Percent::of`: floor of 100·part/whole, capped at 100, 0 for an empty whole. */
  function PercentOf(part: nat, whole: nat): (p: nat)
    ensures p <= 100
  {
    if whole == 0 then 0 else if part * 100 / whole < 100 then part * 100 / whole else 100
  }

  /** The words of the first `n` chapters. */
  function WordTotal(chapters: seq<Chapter>, n: nat): nat
    requires n <= |chapters|
  {
    if n == 0 then 0 else WordTotal(chapters, n - 1) + |chapters[n - 1].words|
  }

  /** How many of the first `n` words lie in a span before `span`. */
  function CountBefore(words: seq<Word>, n: nat, span: nat): nat
    requires n <= |words|
  {
    if n == 0 then 0 else CountBefore(words, n - 1, span) + if words[n - 1].span < span then 1 else 0
  }

  /** The words of the book that come before `span` of `chapter`. */
  function WordsBefore(chapters: seq<Chapter>, chapter: nat, span: nat): nat
    requires chapter < |chapters|
  {
    WordTotal(chapters, chapter) + CountBefore(chapters[chapter].words, |chapters[chapter].words|, span)
  }

  method TotalWords(chapters: seq<Chapter>) returns (total: nat)
    ensures total == WordTotal(chapters, |chapters|)
  {
    total := 0;
    for i := 0 to |chapters|
      invariant total == WordTotal(chapters, i)
    {
      total := total + |chapters[i].words|;
    }
  }

  /** `Kepub::bookmark`: the percent read, and the KoboSpan as its source and value. */
  method Bookmark(chapters: seq<Chapter>, chapter: nat, span: nat)
    returns (percent: nat, source: string, value: string)
    requires chapter < |chapters| && span < |chapters[chapter].spans|
    ensures percent == PercentOf(WordsBefore(chapters, chapter, span), WordTotal(chapters, |chapters|))
    ensures source == chapters[chapter].href && value == chapters[chapter].spans[span].id
  {
    var total := TotalWords(chapters);
    var before := 0;
    for index := 0 to chapter + 1
      invariant before == if index <= chapter then WordTotal(chapters, index) else WordsBefore(chapters, chapter, span)
    {
      if index < chapter {
        before := before + |chapters[index].words|;
      } else {
        var words := chapters[index].words;
        for n := 0 to |words|
          invariant before == WordTotal(chapters, chapter) + CountBefore(words, n, span)
        {
          before := before + if words[n].span < span then 1 else 0;
        }
      }
    }
    percent := PercentOf(before, total);
    source, value := chapters[chapter].href, chapters[chapter].spans[span].id;
  }

  /** The book-wide word a percent names: ⌈percent·total/100⌉, but never past the last word. */
  function Target(percent: nat, total: nat): nat {
    var t := (percent * total + 99) / 100;
    var last := if total == 0 then 0 else total - 1;
    if t < last then t else last
  }

  /** `Kepub::word_at_percent`. */
  method WordAtPercent(chapters: seq<Chapter>, percent: nat) returns (chapter: nat, word: nat)
    ensures WordTotal(chapters, |chapters|) > 0 ==>
              && chapter < |chapters| && word < |chapters[chapter].words|
              && WordTotal(chapters, chapter) + word == Target(percent, WordTotal(chapters, |chapters|))
    ensures WordTotal(chapters, |chapters|) == 0 ==>
              chapter == (if chapters == [] then 0 else |chapters| - 1) && word == 0
  {
    var total := TotalWords(chapters);
    var target := Target(percent, total);
    var seen := 0;
    for c := 0 to |chapters|
      invariant seen == WordTotal(chapters, c)
      invariant seen <= target
    {
      var len := |chapters[c].words|;
      if target < seen + len {
        WordTotalGrows(chapters, c + 1, |chapters|);
        return c, target - seen;
      }
      seen := seen + len;
    }
    return if chapters == [] then 0 else |chapters| - 1, 0;
  }

  lemma {:induction false} WordTotalGrows(chapters: seq<Chapter>, m: nat, n: nat)
    requires m <= n <= |chapters|
    ensures WordTotal(chapters, m) <= WordTotal(chapters, n)
  {
    if m < n { WordTotalGrows(chapters, m, n - 1); }
  }

  // ------------------------------------------------------------ inverse laws

  lemma FloorBounds(x: nat, d: nat)
    requires d > 0
    ensures x / d * d <= x < x / d * d + d
  {}

  /** A floored percent is below its exact value by less than one. */
  lemma PercentBounds(part: nat, whole: nat)
    requires part < whole
    ensures PercentOf(part, whole) * whole <= 100 * part < PercentOf(part, whole) * whole + whole
    ensures PercentOf(part, whole) < 100
  {
    FloorBounds(part * 100, whole);
    var q := part * 100 / whole;
    assert q >= 100 ==> q * whole >= 100 * whole;
  }

  /** Nothing read of nothing is 0 percent, and everything, or more, 100. */
  lemma PercentEnds(part: nat, whole: nat)
    ensures whole == 0 ==> PercentOf(part, whole) == 0
    ensures 0 < whole <= part ==> PercentOf(part, whole) == 100
  {
    if 0 < whole <= part {
      FloorBounds(part * 100, whole);
      if part * 100 / whole < 100 {
        NextMultiple(part * 100 / whole, 100, whole);
      }
    }
  }

  lemma TargetBounds(percent: nat, total: nat)
    requires total > 0
    ensures Target(percent, total) < total
    ensures Target(percent, total) < total - 1 ==>
              percent * total <= 100 * Target(percent, total) < percent * total + 100
    ensures Target(percent, total) == total - 1 ==> 100 * (total - 1) < percent * total + 100
  {
    FloorBounds(percent * total + 99, 100);
  }

  /**
   * A position's percent leads back to a word at or before it, closer than one percent of the book;
   * the word is always one the book has.
   */
  lemma LandsJustBefore(before: nat, total: nat)
    requires before < total
    ensures var w := Target(PercentOf(before, total), total);
            w <= before && 100 * (before - w) < total
  {
    var p := PercentOf(before, total);
    PercentBounds(before, total);
    TargetBounds(p, total);
  }

  lemma LaterPercentLaterWord(p: nat, q: nat, total: nat)
    requires p <= q
    ensures Target(p, total) <= Target(q, total)
  {
    assert p * total <= q * total;
  }

  lemma NextMultiple(a: nat, b: nat, w: nat)
    requires a < b
    ensures a * w + w <= b * w
  {
    assert (b - a - 1) * w >= 0;
    assert b * w == a * w + w + (b - a - 1) * w;
  }

  lemma PercentUnique(part: nat, whole: nat, p: nat)
    requires part < whole && p * whole <= 100 * part < p * whole + whole
    ensures PercentOf(part, whole) == p
  {
    PercentBounds(part, whole);
    var q := PercentOf(part, whole);
    if p < q { NextMultiple(p, q, whole); }
    if q < p { NextMultiple(q, p, whole); }
  }

  lemma LongBook(p: nat, total: nat)
    requires p < 100 <= total
    ensures PercentOf(Target(p, total), total) == p
  {
    TargetBounds(p, total);
    NextMultiple(p, 100, total);
    PercentUnique(Target(p, total), total, p);
  }

  lemma ShortBook(total: nat)
    requires 0 < total < 100
    ensures PercentOf(Target(99, total), total) != 99
  {
    TargetBounds(99, total);
    assert Target(99, total) == total - 1;
    PercentBounds(total - 1, total);
  }

  /** Every percent below 100 reads back as itself exactly in a book of at least 100 words. */
  lemma PercentReadsBack(total: nat)
    requires total > 0
    ensures (forall p: nat :: p < 100 ==> PercentOf(Target(p, total), total) == p) <==> total >= 100
  {
    if total >= 100 {
      forall p: nat | p < 100 ensures PercentOf(Target(p, total), total) == p {
        LongBook(p, total);
      }
    } else {
      ShortBook(total);
    }
  }

  lemma WholeBook(total: nat)
    requires total > 0
    ensures PercentOf(total, total) == 100 && Target(100, total) == total - 1
  {
    FloorBounds(total * 100, total);
    if total * 100 / total < 100 {
      NextMultiple(total * 100 / total, 100, total);
    }
  }

  /** In a parsed chapter the words before a span are those of the spans before it. */
  lemma {:induction false} CountIsChapterWords(spans: seq<Span>, n: nat, k: nat)
    requires k <= |spans| && n <= |AllWords(spans)|
    ensures var m := |ChapterWords(spans, k, false)|;
            CountBefore(AllWords(spans), n, k) == if n < m then n else m
  {
    if n > 0 {
      CountIsChapterWords(spans, n - 1, k);
      SplitAtSpan(spans, |spans|, k, n - 1);
    } else {
    }
  }

  lemma {:induction false} SplitAtSpan(spans: seq<Span>, n: nat, k: nat, i: nat)
    requires k <= n <= |spans| && i < |ChapterWords(spans, n, false)|
    ensures ChapterWords(spans, n, false)[i].span < k <==> i < |ChapterWords(spans, k, false)|
  {
    if n == k {
      SpanBelow(spans, n, i);
    } else if i < |ChapterWords(spans, n - 1, false)| {
      SplitAtSpan(spans, n - 1, k, i);
    } else {
      LastSpan(spans, n - 1, i);
      ChapterWordsGrow(spans, k, n - 1);
    }
  }

  lemma {:induction false} ChapterWordsGrow(spans: seq<Span>, m: nat, n: nat)
    requires m <= n <= |spans|
    ensures |ChapterWords(spans, m, false)| <= |ChapterWords(spans, n, false)|
  {
    if m < n { ChapterWordsGrow(spans, m, n - 1); }
  }

  /** A span's bookmark percent, sought back, lands on a word of the book at or before the span's first word. */
  lemma BookmarkLands(chapters: seq<Chapter>, c: nat, k: nat)
    requires c < |chapters| && Parsed(chapters[c]) && k < |chapters[c].spans|
    ensures var before := WordTotal(chapters, c) + |ChapterWords(chapters[c].spans, k, false)|;
            var total := WordTotal(chapters, |chapters|);
            var w := Target(PercentOf(WordsBefore(chapters, c, k), total), total);
            && before == WordsBefore(chapters, c, k) <= total
            && (before < total ==> w <= before && 100 * (before - w) < total)
            && (before == total > 0 ==> w == total - 1)
  {
    var words, spans := chapters[c].words, chapters[c].spans;
    CountIsChapterWords(spans, |words|, k);
    ChapterWordsGrow(spans, k, |spans|);
    WordTotalGrows(chapters, c + 1, |chapters|);
    var before, total := WordsBefore(chapters, c, k), WordTotal(chapters, |chapters|);
    if before < total {
      LandsJustBefore(before, total);
    } else if total > 0 {
      WholeBook(total);
    }
  }
}
