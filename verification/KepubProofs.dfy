/** What finding, highlighting and resolving promise together. */
module KepubProofs {
  import opened Basics
  import opened Text
  import opened Utf16
  import opened KepubWords
  import opened KepubText
  import opened KepubPassages
  import opened KepubHighlight
  import opened SpanLocation
  import opened KepubParsing

  // ------------------------------------------- glue as split, glue as rendered

  lemma {:induction false} SpanGlue(k: nat, text: string, c: nat, g: bool, g': bool, n: nat)
    requires c <= |text| && (g ==> g') && n < |SpanWords(k, text, c, g)|
    ensures |SpanWords(k, text, c, g)| == |SpanWords(k, text, c, g')|
    ensures var w, w' := SpanWords(k, text, c, g)[n], SpanWords(k, text, c, g')[n];
            w == w'.(glued := w.glued) && (w.glued ==> w'.glued)
  {
    SpanCount(k, text, c - 1, g, g');
    if n < |SpanWords(k, text, c - 1, g)| {
      SpanGlue(k, text, c - 1, g, g', n);
    }
  }

  lemma {:induction false} SpanCount(k: nat, text: string, c: nat, g: bool, g': bool)
    requires c <= |text|
    ensures |SpanWords(k, text, c, g)| == |SpanWords(k, text, c, g')|
  {
    if c > 0 { SpanCount(k, text, c - 1, g, g'); }
  }

  lemma {:induction false} ChapterCount(spans: seq<Span>, n: nat)
    requires n <= |spans|
    ensures |ChapterWords(spans, n, true)| == |ChapterWords(spans, n, false)|
  {
    if n > 0 {
      ChapterCount(spans, n - 1);
      var t := spans[n - 1].text;
      SpanCount(n - 1, t, |t|, CanGlue(spans, n - 1, true), CanGlue(spans, n - 1, false));
    }
  }

  /** Rendering and splitting see the same words; rendering glues no more of them. */
  lemma {:induction false} ChapterGlue(spans: seq<Span>, n: nat, i: nat)
    requires n <= |spans| && i < |ChapterWords(spans, n, true)|
    ensures |ChapterWords(spans, n, true)| == |ChapterWords(spans, n, false)|
    ensures var s, w := ChapterWords(spans, n, true)[i], ChapterWords(spans, n, false)[i];
            s == w.(glued := s.glued) && (s.glued ==> w.glued)
  {
    ChapterCount(spans, n);
    ChapterCount(spans, n - 1);
    var before := |ChapterWords(spans, n - 1, true)|;
    if i < before {
      ChapterGlue(spans, n - 1, i);
    } else {
      var t := spans[n - 1].text;
      SpanGlue(n - 1, t, |t|, CanGlue(spans, n - 1, true), CanGlue(spans, n - 1, false), i - before);
    }
  }

  /** A span of text ending inside a word leaves that word last. */
  lemma {:induction false} LastWordSpan(spans: seq<Span>, k: nat, strict: bool)
    requires k <= |spans| && LastText(spans, k).Some? && EndsInWord(spans[LastText(spans, k).value].text)
    ensures var ws := ChapterWords(spans, k, strict);
            ws != [] && ws[|ws| - 1].span == LastText(spans, k).value
  {
    var t, g := spans[k - 1].text, CanGlue(spans, k - 1, strict);
    if t == [] {
      LastWordSpan(spans, k - 1, strict);
    } else {
      var here := SpanWords(k - 1, t, |t|, g);
      var a, b := SpanWordBounds(k - 1, t, |t|, g, |here| - 1);
    }
  }

  /** A glued word is rendered glued exactly when no paragraph ends since the word before it. */
  lemma StrictGlue(spans: seq<Span>, g: nat)
    requires 0 < g < |AllWords(spans)|
    ensures |ChapterWords(spans, |spans|, true)| == |AllWords(spans)|
    ensures var w := AllWords(spans);
            && w[g].span < |spans|
            && (ChapterWords(spans, |spans|, true)[g].glued
                <==> w[g].glued && Unbroken(spans, w[g - 1].span, w[g].span))
  {
    var w, s := AllWords(spans), ChapterWords(spans, |spans|, true);
    ChapterCount(spans, |spans|);
    ChapterGlue(spans, |spans|, g);
    var a, b := Locate(spans, |spans|, true, g);
    var c, d := Locate(spans, |spans|, false, g);
    var k := w[g].span;
    if a < c { UnitsGrow(spans[k].text, a, c); } else if c < a { UnitsGrow(spans[k].text, c, a); }
    assert a == c;
    if w[g].glued {
      LastWordSpan(spans, k, false);
      var before := ChapterWords(spans, k, false);
      assert WordsTo(spans, k, 0, false) == before;
      assert w[g - 1] == before[g - 1];
    }
  }

  /** `x` and `y` hold the same texts, and `y` glues no more of them. */
  predicate Looser(x: seq<Word>, y: seq<Word>) {
    |x| == |y| && forall i :: 0 <= i < |x| ==> x[i].text == y[i].text && (y[i].glued ==> x[i].glued)
  }

  predicate SameGlue(x: seq<Word>, y: seq<Word>)
    requires |x| == |y|
  {
    forall i :: 1 <= i < |x| ==> x[i].glued == y[i].glued
  }

  lemma PushBoth(mx: seq<string>, my: seq<string>, w: Word, v: Word)
    requires |mx| <= |my| && (mx == [] <==> my == []) && w.text == v.text && (v.glued ==> w.glued)
    ensures |MergePush(mx, w)| <= |MergePush(my, v)|
    ensures |MergePush(mx, w)| == |MergePush(my, v)| <==> |mx| == |my| && (mx == [] || w.glued == v.glued)
    ensures mx == my && (mx == [] || w.glued == v.glued) ==> MergePush(mx, w) == MergePush(my, v)
  {}

  lemma SameGlueSnoc(x: seq<Word>, y: seq<Word>)
    requires |x| == |y| > 0
    ensures var n := |x| - 1; SameGlue(x, y) <==> SameGlue(x[..n], y[..n]) && (n > 0 ==> x[n].glued == y[n].glued)
  {
    var n := |x| - 1;
    if SameGlue(x[..n], y[..n]) && (n > 0 ==> x[n].glued == y[n].glued) {
      forall i | 1 <= i < |x| ensures x[i].glued == y[i].glued {
        if i < n { assert x[..n][i].glued == y[..n][i].glued; }
      }
    }
  }

  /** Glue that is not shared shows in the number of merged words. */
  lemma {:induction false} GlueShows(x: seq<Word>, y: seq<Word>)
    requires Looser(x, y)
    ensures |Merged(x)| <= |Merged(y)|
    ensures SameGlue(x, y) <==> |Merged(x)| == |Merged(y)|
    ensures SameGlue(x, y) ==> Merged(x) == Merged(y)
  {
    if x != [] {
      var n := |x| - 1;
      GlueShows(x[..n], y[..n]);
      PushBoth(Merged(x[..n]), Merged(y[..n]), x[n], y[n]);
      SameGlueSnoc(x, y);
    }
  }

  // ------------------------------------------------ found text is highlight text

  /** No word after the first of `i..=j` is glued across another paragraph's span. */
  predicate SeamFree(spans: seq<Span>, i: nat, j: nat)
    requires j < |AllWords(spans)|
  {
    var w := AllWords(spans);
    forall g :: i < g <= j && w[g].glued && w[g].span < |spans| ==> Unbroken(spans, w[g - 1].span, w[g].span)
  }

  lemma SeamFreeIsSameGlue(spans: seq<Span>, i: nat, j: nat)
    requires i <= j < |AllWords(spans)|
    ensures |ChapterWords(spans, |spans|, true)| == |AllWords(spans)|
    ensures var w, s := AllWords(spans), ChapterWords(spans, |spans|, true);
            Looser(w[i..j + 1], s[i..j + 1]) && (SeamFree(spans, i, j) <==> SameGlue(w[i..j + 1], s[i..j + 1]))
  {
    var w, s := AllWords(spans), ChapterWords(spans, |spans|, true);
    ChapterCount(spans, |spans|);
    var x, y := w[i..j + 1], s[i..j + 1];
    forall m | 0 <= m < |x| ensures x[m].text == y[m].text && (y[m].glued ==> x[m].glued) {
      ChapterGlue(spans, |spans|, i + m);
    }
    forall g | i < g <= j
      ensures w[g].span < |spans|
      ensures s[g].glued <==> w[g].glued && Unbroken(spans, w[g - 1].span, w[g].span)
    {
      StrictGlue(spans, g);
    }
    if SameGlue(x, y) {
      forall g | i < g <= j && w[g].glued ensures Unbroken(spans, w[g - 1].span, w[g].span) {
        assert x[g - i].glued == y[g - i].glued;
      }
    }
    if SeamFree(spans, i, j) {
      forall m | 1 <= m < |x| ensures x[m].glued == y[m].glued {
        StrictGlue(spans, i + m);
        assert x[m] == w[i + m] && y[m] == s[i + m];
        assert w[i + m].glued ==> Unbroken(spans, w[i + m - 1].span, w[i + m].span);
      }
    }
  }

  /** The highlight over words `i..=j` reads as those words, merged where the paragraph really runs on. */
  lemma HighlightReads(spans: seq<Span>, i: nat, j: nat)
    requires i <= j < |AllWords(spans)| && (i == 0 || !AllWords(spans)[i].glued)
    ensures |ChapterWords(spans, |spans|, true)| == |AllWords(spans)|
    ensures var m := Merged(ChapterWords(spans, |spans|, true)[i..j + 1]);
            HighlightText(spans, i, j) == Join(m) && forall t :: 0 <= t < |m| ==> IsWord(m[t])
  {
    var w, s := AllWords(spans), ChapterWords(spans, |spans|, true);
    ChapterCount(spans, |spans|);
    ChapterGlue(spans, |spans|, i);
    ChapterGlue(spans, |spans|, j);
    WordsCuttable(spans, i, j);
    var a, a' := Locate(spans, |spans|, true, i);
    var b', b := Locate(spans, |spans|, true, j);
    var k, l := w[i].span, w[j].span;
    if k == l && b < a {
      UnitsGrow(spans[k].text, b, a);
    }
    RawIsRange(spans, w[i], w[j], a, b, l);
    RangeSplits(spans, s, i, j, a, a', b', b);
    SplitGivesWords(RangeText(spans, k, a, l, b));
  }

  /** The words of a found passage, merged, are the passage's words. */
  lemma FoundWords(chapter: Chapter, needle: seq<string>, at: nat, first: nat, last: nat)
    requires FirstRun(chapter, needle, at, first, last)
    ensures first <= last < |chapter.words| && (first == 0 || !chapter.words[first].glued)
    ensures Merged(chapter.words[first..last + 1]) == needle
  {
    var words, b := chapter.words, at + |needle| - 1;
    var ts := Tokens(words, |words|);
    TokenRange(words, at, b);
    var merged := Merged(words[first..last + 1]);
    assert SameTexts(ts[at..b + 1], merged);
    forall t | 0 <= t < |needle| ensures merged[t] == needle[t] {
      assert ts[at..b + 1][t] == ts[at + t];
    }
  }

  /** Lists of words join alike only when they are alike. */
  lemma JoinsAlike(x: seq<string>, y: seq<string>)
    requires (forall i :: 0 <= i < |x| ==> IsWord(x[i])) && forall i :: 0 <= i < |y| ==> IsWord(y[i])
    ensures Join(x) == Join(y) <==> x == y
  {
    SplitJoin(x);
    SplitJoin(y);
  }

  /**
   * A found passage's highlight carries exactly the passage, whitespace collapsed, precisely when
   * no glued word in the range was joined across another paragraph's (empty) span.
   */
  lemma FoundTextIsPassage(chapter: Chapter, passage: string, at: nat, first: nat, last: nat)
    requires Parsed(chapter) && FirstRun(chapter, Split(passage), at, first, last)
    ensures first <= last < |chapter.words|
    ensures HighlightText(chapter.spans, first, last) == Collapse(passage) <==> SeamFree(chapter.spans, first, last)
  {
    FoundWords(chapter, Split(passage), at, first, last);
    HighlightReads(chapter.spans, first, last);
    SeamFreeIsSameGlue(chapter.spans, first, last);
    var x := chapter.words[first..last + 1];
    var y := ChapterWords(chapter.spans, |chapter.spans|, true)[first..last + 1];
    GlueShows(x, y);
    SplitGivesWords(passage);
    JoinsAlike(Merged(y), Split(passage));
  }

  /** The spans of each paragraph follow one another, as kepubify writes them. */
  predicate Contiguous(spans: seq<Span>) {
    forall p, m, k :: 0 <= p < m < k < |spans| && SameParagraph(spans, p, k) ==> SameParagraph(spans, p, m)
  }

  lemma {:induction false} ContiguousUnbroken(spans: seq<Span>, p: nat, k: nat)
    requires Contiguous(spans) && p <= k < |spans| && SameParagraph(spans, p, k)
    ensures Unbroken(spans, p, k)
  {
    if p + 1 < k {
      assert SameParagraph(spans, p, k - 1);
      ContiguousUnbroken(spans, p, k - 1);
    }
  }

  lemma GluedWithinParagraph(spans: seq<Span>, g: nat)
    requires Contiguous(spans) && 0 < g < |AllWords(spans)| && AllWords(spans)[g].glued
    ensures AllWords(spans)[g].span < |spans|
    ensures Unbroken(spans, AllWords(spans)[g - 1].span, AllWords(spans)[g].span)
  {
    var w := AllWords(spans);
    var a, b := Locate(spans, |spans|, false, g);
    var k := w[g].span;
    LastWordSpan(spans, k, false);
    assert WordsTo(spans, k, 0, false) == ChapterWords(spans, k, false);
    assert w[g - 1] == ChapterWords(spans, k, false)[g - 1];
    ContiguousUnbroken(spans, w[g - 1].span, k);
  }

  /** With contiguous paragraphs every found passage is carried exactly. */
  lemma ContiguousFindsExactly(chapter: Chapter, passage: string, at: nat, first: nat, last: nat)
    requires Parsed(chapter) && FirstRun(chapter, Split(passage), at, first, last)
    requires Contiguous(chapter.spans)
    ensures first <= last < |chapter.words|
    ensures HighlightText(chapter.spans, first, last) == Collapse(passage)
  {
    FoundTextIsPassage(chapter, passage, at, first, last);
    var spans, w := chapter.spans, chapter.words;
    forall g | first < g <= last && w[g].glued && w[g].span < |spans|
      ensures Unbroken(spans, w[g - 1].span, w[g].span)
    {
      GluedWithinParagraph(spans, g);
    }
  }

  // --------------------------------------------------------- the words themselves

  lemma {:induction false} ChapterPrefix(spans: seq<Span>, m: nat, n: nat)
    requires m <= n <= |spans|
    ensures ChapterWords(spans, m, false) <= ChapterWords(spans, n, false)
  {
    if m < n { ChapterPrefix(spans, m, n - 1); }
  }

  /** Each word is a maximal run of its span's text, at its own UTF-16 offsets, and none overlaps a later one. */
  lemma WordIsRun(spans: seq<Span>, i: nat) returns (a: nat, b: nat)
    requires i < |AllWords(spans)|
    ensures var w := AllWords(spans)[i];
            w.span < |spans| && IsRun(w, spans[w.span].text, |spans[w.span].text|, a, b)
    ensures forall j :: i < j < |AllWords(spans)| ==>
              var w, v := AllWords(spans)[i], AllWords(spans)[j];
              !KeyLess(v.span, v.start, w.span, w.end)
  {
    a, b := Locate(spans, |spans|, false, i);
    forall j | i < j < |AllWords(spans)|
      ensures var w, v := AllWords(spans)[i], AllWords(spans)[j];
              !KeyLess(v.span, v.start, w.span, w.end)
    {
      WordsOrdered(spans, |spans|, i, j);
    }
  }

  /** Every character that is not whitespace is in a word. */
  lemma CharacterHasWord(spans: seq<Span>, k: nat, c: nat) returns (i: nat)
    requires k < |spans| && c < |spans[k].text| && !IsSpace(spans[k].text[c])
    ensures i < |AllWords(spans)|
    ensures var w := AllWords(spans)[i]; w.span == k && w.start <= UnitsTo(spans[k].text, c) < w.end
  {
    var text, g := spans[k].text, CanGlue(spans, k, false);
    var n, a, b := SpanCovered(k, text, |text|, g, c);
    i := |ChapterWords(spans, k, false)| + n;
    ChapterPrefix(spans, k + 1, |spans|);
    assert ChapterWords(spans, k + 1, false)[i] == SpanWords(k, text, |text|, g)[n];
    if a < c { UnitsGrow(text, a, c); }
    UnitsGrow(text, c, b);
  }

  // ------------------------------------------------------------------ a seam

  const SEAM: seq<Span> := [Span("kobo.1.1", "a"), Span("kobo.2.1", ""), Span("kobo.1.2", "b")]

  lemma SeamParagraphs()
    ensures ParagraphKey("kobo.1.1") == ParagraphKey("kobo.1.2") == "kobo.1"
    ensures ParagraphKey("kobo.2.1") == "kobo.2"
  {
    LastDot("kobo.1", "1");
    LastDot("kobo.1", "2");
    LastDot("kobo.2", "1");
    assert "kobo.1" + "." + "1" == "kobo.1.1" && "kobo.1" + "." + "2" == "kobo.1.2" && "kobo.2" + "." + "1" == "kobo.2.1";
  }

  lemma SeamWords()
    ensures AllWords(SEAM) == [Word(0, "a", 0, 1, false), Word(2, "b", 0, 1, true)]
  {
    SeamParagraphs();
    assert LastText(SEAM, 1) == Some(0) && LastText(SEAM, 2) == Some(0);
    assert CanGlue(SEAM, 2, false);
    assert !CanGlue(SEAM, 0, false);
    assert SpanWords(0, "a", 1, false) == [Word(0, "a", 0, 1, false)] by { assert SpanWords(0, "a", 0, false) == []; }
    assert SpanWords(2, "b", 1, true) == [Word(2, "b", 0, 1, true)] by { assert SpanWords(2, "b", 0, true) == []; }
    assert ChapterWords(SEAM, 1, false) == [Word(0, "a", 0, 1, false)] by { assert ChapterWords(SEAM, 0, false) == []; }
    assert ChapterWords(SEAM, 2, false) == [Word(0, "a", 0, 1, false)];
  }

  lemma SeamTokens(words: seq<Word>)
    requires words == [Word(0, "a", 0, 1, false), Word(2, "b", 0, 1, true)]
    ensures Tokens(words, 2) == [Token("ab", 0, 1)]
  {
    assert Tokens(words, 1) == [Token("a", 0, 0)] by { assert Tokens(words, 0) == []; }
    assert "a" + "b" == "ab";
  }

  lemma SeamInside()
    ensures |AllWords(SEAM)| == 2 && !SeamFree(SEAM, 0, 1)
  {
    SeamWords();
    SeamParagraphs();
    var w := AllWords(SEAM);
    assert w[1].glued && w[1].span == 2 && w[0].span == 0;
    assert Unbroken(SEAM, 0, 2) ==> SameParagraph(SEAM, 1, 2);
  }

  /** The passage "ab" is found in `SEAM`, but its highlight reads "a b": an empty span of another paragraph lies between. */
  lemma SeamExample(chapter: Chapter)
    requires Parsed(chapter) && chapter.spans == SEAM
    ensures FirstRun(chapter, Split("ab"), 0, 0, 1)
    ensures |AllWords(SEAM)| == 2 && HighlightText(SEAM, 0, 1) != Collapse("ab")
  {
    SeamRun(chapter);
    FoundTextIsPassage(chapter, "ab", 0, 0, 1);
    SeamInside();
  }

  lemma SeamRun(chapter: Chapter)
    requires Parsed(chapter) && chapter.spans == SEAM
    ensures FirstRun(chapter, Split("ab"), 0, 0, 1)
  {
    SeamWords();
    SplitWord("ab");
    SeamTokens(chapter.words);
  }
}
