/** A chapter's running prose, its merged words, and how the two relate. */
module KepubText {
  import opened Basics
  import opened Text
  import opened Utf16
  import opened KepubWords

  /** What rendering puts before span `k`: a space where a new paragraph starts. */
  function Sep(spans: seq<Span>, k: nat): string
    requires k < |spans|
  {
    if k > 0 && !SameParagraph(spans, k - 1, k) then " " else ""
  }

  /** The first `n` spans as a highlight renders them, before whitespace is collapsed. */
  function Prose(spans: seq<Span>, n: nat): string
    requires n <= |spans|
  {
    if n == 0 then "" else Prose(spans, n - 1) + Sep(spans, n - 1) + spans[n - 1].text
  }

  /** The rendered prose up to character `c` of span `k`. */
  function ProseTo(spans: seq<Span>, k: nat, c: nat): string
    requires k < |spans| && c <= |spans[k].text|
  {
    Prose(spans, k) + Sep(spans, k) + spans[k].text[..c]
  }

  /** The words up to character `c` of span `k`. */
  function WordsTo(spans: seq<Span>, k: nat, c: nat, strict: bool): seq<Word>
    requires k < |spans| && c <= |spans[k].text|
  {
    ChapterWords(spans, k, strict) + SpanWords(k, spans[k].text, c, CanGlue(spans, k, strict))
  }

  // ------------------------------------------------------ merging glued words

  function MergePush(ts: seq<string>, w: Word): seq<string> {
    if w.glued && ts != [] then ts[..|ts| - 1] + [ts[|ts| - 1] + w.text] else ts + [w.text]
  }

  /** The texts of `words`, each glued word run on into the one before it. */
  function Merged(words: seq<Word>): (ts: seq<string>)
    ensures (ts == []) == (words == [])
  {
    if words == [] then [] else MergePush(Merged(words[..|words| - 1]), words[|words| - 1])
  }

  lemma MergedSnoc(ws: seq<Word>, w: Word)
    ensures Merged(ws + [w]) == MergePush(Merged(ws), w)
  {
    assert (ws + [w])[..|ws|] == ws;
  }

  lemma FuseMergePush(a: seq<string>, b: seq<string>, w: Word)
    requires a != [] && b != []
    ensures MergePush(Fuse(a, b), w) == Fuse(a, MergePush(b, w))
  {
    if w.glued && |b| == 1 {
      assert (a[|a| - 1] + b[0]) + w.text == a[|a| - 1] + (b[0] + w.text);
    }
  }

  lemma ConcatMergePush(a: seq<string>, b: seq<string>, w: Word)
    requires w.glued ==> b != []
    ensures MergePush(a + b, w) == a + MergePush(b, w)
  {}

  lemma {:induction false} MergedFused(a: seq<Word>, b: seq<Word>)
    requires a != [] && b != [] && b[0].glued
    ensures Merged(a + b) == Fuse(Merged(a), Merged(b))
    decreases |b|
  {
    var init, w := b[..|b| - 1], b[|b| - 1];
    assert b == init + [w];
    if init == [] {
      MergedFusedOne(a, w);
    } else {
      assert init[0] == b[0];
      MergedFused(a, init);
      MergedFusedStep(a, init, w);
    }
  }

  lemma MergedFusedOne(a: seq<Word>, w: Word)
    requires a != [] && w.glued
    ensures Merged(a + [w]) == Fuse(Merged(a), Merged([w]))
  {
    MergedSnoc(a, w);
    MergedSnoc([], w);
    assert [] + [w] == [w];
  }

  lemma MergedFusedStep(a: seq<Word>, init: seq<Word>, w: Word)
    requires a != [] && init != [] && Merged(a + init) == Fuse(Merged(a), Merged(init))
    ensures Merged(a + (init + [w])) == Fuse(Merged(a), Merged(init + [w]))
  {
    MergedSnoc(a + init, w);
    MergedSnoc(init, w);
    FuseMergePush(Merged(a), Merged(init), w);
    assert (a + init) + [w] == a + (init + [w]);
  }

  lemma MergedApartStep(a: seq<Word>, init: seq<Word>, w: Word)
    requires Merged(a + init) == Merged(a) + Merged(init)
    requires w.glued ==> init != []
    ensures Merged(a + (init + [w])) == Merged(a) + Merged(init + [w])
  {
    assert a + (init + [w]) == (a + init) + [w];
    MergedSnoc(a + init, w);
    MergedSnoc(init, w);
    ConcatMergePush(Merged(a), Merged(init), w);
  }

  lemma {:induction false} MergedUnglued(a: seq<Word>, b: seq<Word>)
    requires b != [] && !b[0].glued
    ensures Merged(a + b) == Merged(a) + Merged(b)
    decreases |b|
  {
    var init, w := b[..|b| - 1], b[|b| - 1];
    if init == [] {
      assert a + init == a;
    } else {
      assert init[0] == b[0];
      MergedUnglued(a, init);
    }
    MergedApartStep(a, init, w);
    assert init + [w] == b;
  }

  lemma MergedApart(a: seq<Word>, b: seq<Word>)
    requires a == [] || b == [] || !b[0].glued
    ensures Merged(a + b) == Merged(a) + Merged(b)
  {
    if b == [] {
      assert a + b == a && Merged(a) + [] == Merged(a);
    } else if a == [] {
      assert a + b == b && [] + Merged(b) == Merged(b);
    } else {
      MergedUnglued(a, b);
    }
  }

  lemma MergePushGrown(m: seq<string>, w: Word, c: char, e: nat)
    requires !IsSpace(c)
    ensures MergePush(m, w.(text := w.text + [c], end := e)) == Push(MergePush(m, w), true, c)
  {
    if m != [] {
      assert m[|m| - 1] + (w.text + [c]) == (m[|m| - 1] + w.text) + [c];
    }
  }

  lemma MergedGrown(ws: seq<Word>, c: char, e: nat)
    requires ws != [] && !IsSpace(c)
    ensures Merged(Grow(ws, c, e)) == Push(Merged(ws), true, c)
  {
    var init, w := ws[..|ws| - 1], ws[|ws| - 1];
    var grown := w.(text := w.text + [c], end := e);
    assert init + [w] == ws && Grow(ws, c, e) == init + [grown];
    MergedSnoc(init, w);
    MergedSnoc(init, grown);
    MergePushGrown(Merged(init), w, c, e);
  }

  /** What one more character does to a span's words, it does to their merged texts as `Split` reads them. */
  lemma SpanMergedStep(k: nat, text: string, c: nat, canGlue: bool)
    requires c < |text|
    ensures InWord(text, c) ==> Merged(SpanWords(k, text, c, canGlue)) != []
    ensures Merged(SpanWords(k, text, c + 1, canGlue))
            == Push(Merged(SpanWords(k, text, c, canGlue)), InWord(text, c), text[c])
  {
    var ws, x := SpanWords(k, text, c, canGlue), text[c];
    StepOfSpan(k, text, c, canGlue);
    if !IsSpace(x) {
      if InWord(text, c) {
        MergedGrown(ws, x, UnitsTo(text, c + 1));
      } else {
        MergedSnoc(ws, Word(k, [x], UnitsTo(text, c), UnitsTo(text, c + 1), canGlue && c == 0));
      }
    }
  }

  lemma SplitStep(text: string, c: nat)
    requires c < |text|
    ensures InWord(text, c) ==> Split(text[..c]) != []
    ensures Split(text[..c + 1]) == Push(Split(text[..c]), InWord(text, c), text[c])
  {
    SplitSnoc(text[..c], text[c]);
    assert text[..c + 1] == text[..c] + [text[c]];
  }

  /** Within one span the merged words are its `split_whitespace`. */
  lemma {:induction false} SpanMerged(k: nat, text: string, c: nat, canGlue: bool)
    requires c <= |text|
    ensures Merged(SpanWords(k, text, c, canGlue)) == Split(text[..c])
  {
    if c > 0 {
      var d := c - 1;
      SpanMerged(k, text, d, canGlue);
      SpanMergedStep(k, text, d, canGlue);
      SplitStep(text, d);
      var words := Merged(SpanWords(k, text, d, canGlue));
      assert words == Split(text[..d]);
      assert Merged(SpanWords(k, text, d + 1, canGlue)) == Push(words, InWord(text, d), text[d]);
    } else {
      assert text[..0] == "";
    }
  }

  /** A span's first word is glued only when it opens the span. */
  lemma {:induction false} FirstGlued(k: nat, text: string, c: nat, canGlue: bool)
    requires c <= |text| && SpanWords(k, text, c, canGlue) != []
    ensures SpanWords(k, text, c, canGlue)[0].glued == (canGlue && !IsSpace(text[0]))
  {
    if SpanWords(k, text, c - 1, canGlue) != [] {
      FirstGlued(k, text, c - 1, canGlue);
    } else if c > 1 {
      NoWordsIfSpace(k, text, c - 1, canGlue);
    }
  }

  lemma {:induction false} NoWordsIfSpace(k: nat, text: string, c: nat, canGlue: bool)
    requires 0 < c <= |text| && SpanWords(k, text, c, canGlue) == []
    ensures IsSpace(text[0])
  {
    if c > 1 { NoWordsIfSpace(k, text, c - 1, canGlue); }
  }

  // ----------------------------------------------- prose against merged words

  lemma {:induction false} UnbrokenIsSame(spans: seq<Span>, p: nat, k: nat)
    requires p <= k < |spans| && Unbroken(spans, p, k)
    ensures SameParagraph(spans, p, k)
  {
    if p < k {
      UnbrokenIsSame(spans, p, k - 1);
    }
  }

  lemma SepCloses(x: string, spans: seq<Span>, k: nat)
    requires k < |spans|
    ensures EndsInWord(x + Sep(spans, k)) == (EndsInWord(x) && (k > 0 ==> SameParagraph(spans, k - 1, k)))
  {
    if Sep(spans, k) == "" { assert x + Sep(spans, k) == x; }
  }

  lemma GlueOverEmpty(spans: seq<Span>, k: nat)
    requires 0 < k < |spans| && spans[k - 1].text == []
    ensures CanGlue(spans, k, true) == (CanGlue(spans, k - 1, true) && SameParagraph(spans, k - 1, k))
  {
    match LastText(spans, k)
    case None =>
    case Some(p) =>
      if Unbroken(spans, p, k - 1) { UnbrokenIsSame(spans, p, k - 1); }
  }

  lemma GlueOverText(spans: seq<Span>, k: nat)
    requires 0 < k < |spans| && spans[k - 1].text != []
    ensures CanGlue(spans, k, true) == (EndsInWord(spans[k - 1].text) && SameParagraph(spans, k - 1, k))
  {
    assert Unbroken(spans, k - 1, k - 1);
  }

  lemma EndsWithTail(x: string, text: string)
    requires text != []
    ensures EndsInWord(x + text) == EndsInWord(text)
  {}

  /** The prose before span `k` stops inside a word exactly when a word opening `k` strictly continues it. */
  lemma {:induction false} ProseOpen(spans: seq<Span>, k: nat)
    requires k < |spans|
    ensures EndsInWord(Prose(spans, k) + Sep(spans, k)) == CanGlue(spans, k, true)
  {
    SepCloses(Prose(spans, k), spans, k);
    if k > 0 {
      var x := Prose(spans, k - 1) + Sep(spans, k - 1);
      if spans[k - 1].text == [] {
        assert x + spans[k - 1].text == x;
        ProseOpen(spans, k - 1);
        GlueOverEmpty(spans, k);
      } else {
        EndsWithTail(x, spans[k - 1].text);
        GlueOverText(spans, k);
      }
    }
  }

  lemma SplitSep(x: string, spans: seq<Span>, k: nat)
    requires k < |spans|
    ensures Split(x + Sep(spans, k)) == Split(x)
  {
    if Sep(spans, k) == "" {
      assert x + Sep(spans, k) == x;
    } else {
      SplitSnoc(x, ' ');
    }
  }

  lemma ProseOfWhole(spans: seq<Span>, k: nat)
    requires k < |spans|
    ensures Prose(spans, k + 1) == ProseTo(spans, k, |spans[k].text|)
    ensures ChapterWords(spans, k + 1, true) == WordsTo(spans, k, |spans[k].text|, true)
  {
    var t := spans[k].text;
    assert t[..|t|] == t;
  }

  /** Splitting the rendered prose gives the words, merged wherever the paragraph really runs on. */
  lemma {:induction false} ProseTokens(spans: seq<Span>, k: nat, c: nat)
    requires k < |spans| && c <= |spans[k].text|
    ensures Split(ProseTo(spans, k, c)) == Merged(WordsTo(spans, k, c, true))
    decreases k
  {
    var text, g := spans[k].text, CanGlue(spans, k, true);
    var x := Prose(spans, k) + Sep(spans, k);
    var before, here := ChapterWords(spans, k, true), SpanWords(k, text, c, g);
    if k > 0 {
      ProseTokens(spans, k - 1, |spans[k - 1].text|);
      ProseOfWhole(spans, k - 1);
    }
    SplitSep(Prose(spans, k), spans, k);
    SpanMerged(k, text, c, g);
    ProseOpen(spans, k);
    if here != [] { FirstGlued(k, text, c, g); }
    if g && StartsInWord(text[..c]) {
      SplitFused(x, text[..c]);
      MergedFused(before, here);
    } else {
      SplitApart(x, text[..c]);
      MergedApart(before, here);
    }
  }

  // ----------------------------------------------------------- placing words

  /** Where word `i` of `words` lies: at `[a..b]` of its span, with `i` words before it and `i + 1` up to its end. */
  predicate Placed(spans: seq<Span>, words: seq<Word>, strict: bool, i: nat, a: nat, b: nat) {
    && i < |words|
    && var k := words[i].span;
    && k < |spans|
    && IsRun(words[i], spans[k].text, |spans[k].text|, a, b)
    && words[i].glued == (CanGlue(spans, k, strict) && a == 0)
    && |WordsTo(spans, k, a, strict)| == i
    && |WordsTo(spans, k, b, strict)| == i + 1
    && WordsTo(spans, k, a, strict) <= words
    && WordsTo(spans, k, b, strict) <= words
  }

  lemma PlacedHere(spans: seq<Span>, k: nat, strict: bool, m: nat, a: nat, b: nat)
    requires k < |spans| && WordAt(k, spans[k].text, |spans[k].text|, CanGlue(spans, k, strict), m, a, b)
    ensures Placed(spans, ChapterWords(spans, k + 1, strict), strict, |ChapterWords(spans, k, strict)| + m, a, b)
  {
    var text, g := spans[k].text, CanGlue(spans, k, strict);
    SpanPrefix(k, text, g, a, |text|);
    if b < |text| { SpanPrefix(k, text, g, b, |text|); }
  }

  lemma {:induction false} Locate(spans: seq<Span>, n: nat, strict: bool, i: nat) returns (a: nat, b: nat)
    requires n <= |spans| && i < |ChapterWords(spans, n, strict)|
    ensures Placed(spans, ChapterWords(spans, n, strict), strict, i, a, b)
    ensures ChapterWords(spans, n, strict)[i].span < n
  {
    var k := n - 1;
    var before := ChapterWords(spans, k, strict);
    if i < |before| {
      a, b := Locate(spans, k, strict, i);
    } else {
      a, b := SpanWordBounds(k, spans[k].text, |spans[k].text|, CanGlue(spans, k, strict), i - |before|);
      PlacedHere(spans, k, strict, i - |before|, a, b);
    }
  }

  /** The rendered text from character `a` of span `k` to character `b` of span `l`. */
  function RangeText(spans: seq<Span>, k: nat, a: nat, l: nat, b: nat): string
    requires k <= l < |spans| && b <= |spans[l].text| && a <= |spans[k].text|
    requires k == l ==> a <= b
  {
    if k == l then spans[k].text[a..b]
    else RangeText(spans, k, a, l - 1, |spans[l - 1].text|) + Sep(spans, l) + spans[l].text[..b]
  }

  lemma Assoc(a: string, b: string, c: string, d: string)
    ensures a + b + c + d == a + (b + c + d)
  {}

  lemma {:induction false} ProseRange(spans: seq<Span>, k: nat, a: nat, l: nat, b: nat)
    requires k <= l < |spans| && b <= |spans[l].text| && a <= |spans[k].text|
    requires k == l ==> a <= b
    ensures ProseTo(spans, l, b) == ProseTo(spans, k, a) + RangeText(spans, k, a, l, b)
  {
    var t := spans[l].text[..b];
    if k == l {
      assert t == spans[k].text[..a] + spans[k].text[a..b];
    } else {
      ProseRange(spans, k, a, l - 1, |spans[l - 1].text|);
      ProseOfWhole(spans, l - 1);
      Assoc(ProseTo(spans, k, a), RangeText(spans, k, a, l - 1, |spans[l - 1].text|), Sep(spans, l), t);
    }
  }

  lemma NotOpenBefore(spans: seq<Span>, ws: seq<Word>, i: nat, a: nat, b: nat)
    requires Placed(spans, ws, true, i, a, b)
    requires i == 0 || !ws[i].glued
    ensures !EndsInWord(ProseTo(spans, ws[i].span, a))
  {
    var k := ws[i].span;
    var x := Prose(spans, k) + Sep(spans, k);
    if a > 0 {
      EndsWithTail(x, spans[k].text[..a]);
    } else if i == 0 {
      ProseTokens(spans, k, a);
    } else {
      ProseOpen(spans, k);
      assert ProseTo(spans, k, a) == x;
    }
  }

  lemma CancelPrefix<T>(a: seq<T>, b: seq<T>, c: seq<T>)
    requires a + b == a + c
    ensures b == c
  {
    assert (a + b)[|a|..] == b && (a + c)[|a|..] == c;
  }

  lemma RangeWords(spans: seq<Span>, k: nat, a: nat, l: nat, b: nat, x: seq<Word>, y: seq<Word>)
    requires k <= l < |spans| && b <= |spans[l].text| && a <= |spans[k].text| && (k == l ==> a <= b)
    requires WordsTo(spans, k, a, true) == x && WordsTo(spans, l, b, true) == x + y
    requires y != [] && (x == [] || !y[0].glued) && !EndsInWord(ProseTo(spans, k, a))
    ensures Split(RangeText(spans, k, a, l, b)) == Merged(y)
  {
    var before, here := ProseTo(spans, k, a), RangeText(spans, k, a, l, b);
    ProseRange(spans, k, a, l, b);
    ProseTokens(spans, k, a);
    ProseTokens(spans, l, b);
    SplitApart(before, here);
    MergedApart(x, y);
    CancelPrefix(Merged(x), Split(here), Merged(y));
  }

  lemma PrefixesMeet<T>(p: seq<T>, q: seq<T>, ws: seq<T>, i: nat, j: nat)
    requires p <= ws && q <= ws && |p| == i <= j && |q| == j + 1
    ensures p == ws[..i] && q == ws[..i] + ws[i..j + 1]
  {}

  /** The text rendered for words `i..=j` splits into those words, merged where the paragraph really runs on. */
  lemma RangeSplits(spans: seq<Span>, ws: seq<Word>, i: nat, j: nat, a: nat, a': nat, b': nat, b: nat)
    requires i <= j && Placed(spans, ws, true, i, a, a') && Placed(spans, ws, true, j, b', b)
    requires ws[i].span <= ws[j].span && (ws[i].span == ws[j].span ==> a <= b)
    requires i == 0 || !ws[i].glued
    ensures Split(RangeText(spans, ws[i].span, a, ws[j].span, b)) == Merged(ws[i..j + 1])
  {
    var k, l := ws[i].span, ws[j].span;
    PrefixesMeet(WordsTo(spans, k, a, true), WordsTo(spans, l, b, true), ws, i, j);
    NotOpenBefore(spans, ws, i, a, a');
    RangeWords(spans, k, a, l, b, ws[..i], ws[i..j + 1]);
  }
}
