/** `Chapter::highlight`: the text and the KoboSpan range of a run of words. */
module KepubHighlight {
  import opened Basics
  import opened Text
  import opened Utf16
  import opened KepubWords
  import opened KepubText
  import opened KepubPassages
  import opened SpanLocation

  /** A highlight before it is given an id; `Color` stands for the swatch, which passes through untouched. */
  datatype NewHighlight<Color> =
    NewHighlight(text: string, color: Color, note: Option<string>, location: Option<SpanRange>)

  // ------------------------------------------------------ words in order

  lemma {:induction false} SpanWordsOrdered(k: nat, text: string, g: bool, i: nat, j: nat)
    requires i < j < |SpanWords(k, text, |text|, g)|
    ensures SpanWords(k, text, |text|, g)[i].end <= SpanWords(k, text, |text|, g)[j].start
  {
    var a, b := SpanWordBounds(k, text, |text|, g, i);
    var c, d := SpanWordBounds(k, text, |text|, g, j);
    if c < b {
      SpanPrefix(k, text, g, c, b);
    } else if b < c {
      UnitsGrow(text, b, c);
    }
  }

  /** `(span, UTF-16 offset)` order. */
  predicate KeyLess(s1: nat, c1: nat, s2: nat, c2: nat) {
    s1 < s2 || (s1 == s2 && c1 < c2)
  }

  lemma {:induction false} SpanBelow(spans: seq<Span>, n: nat, i: nat)
    requires n <= |spans| && i < |ChapterWords(spans, n, false)|
    ensures ChapterWords(spans, n, false)[i].span < n
  {
    var k := n - 1;
    if i < |ChapterWords(spans, k, false)| {
      SpanBelow(spans, k, i);
    } else {
      LastSpan(spans, k, i);
    }
  }

  lemma LastSpanOrdered(spans: seq<Span>, k: nat, i: nat, j: nat)
    requires k < |spans| && i < j < |SpanWords(k, spans[k].text, |spans[k].text|, CanGlue(spans, k, false))|
    ensures var ws := SpanWords(k, spans[k].text, |spans[k].text|, CanGlue(spans, k, false));
            !KeyLess(ws[j].span, ws[j].start, ws[i].span, ws[i].end)
  {
    var text, g := spans[k].text, CanGlue(spans, k, false);
    SpanWordsOrdered(k, text, g, i, j);
    var a, b := SpanWordBounds(k, text, |text|, g, i);
    var c, d := SpanWordBounds(k, text, |text|, g, j);
  }

  lemma {:induction false} WordsOrdered(spans: seq<Span>, n: nat, i: nat, j: nat)
    requires n <= |spans| && i < j < |ChapterWords(spans, n, false)|
    ensures var ws := ChapterWords(spans, n, false); !KeyLess(ws[j].span, ws[j].start, ws[i].span, ws[i].end)
  {
    var k := n - 1;
    var before := |ChapterWords(spans, k, false)|;
    if j < before {
      WordsOrdered(spans, k, i, j);
    } else if i < before {
      SpanBelow(spans, k, i);
      LastSpan(spans, k, j);
    } else {
      LastSpanOrdered(spans, k, i - before, j - before);
    }
  }

  lemma LastSpan(spans: seq<Span>, k: nat, j: nat)
    requires k < |spans| && |ChapterWords(spans, k, false)| <= j < |ChapterWords(spans, k + 1, false)|
    ensures ChapterWords(spans, k + 1, false)[j].span == k
  {
    var text := spans[k].text;
    var a, b := SpanWordBounds(k, text, |text|, CanGlue(spans, k, false), j - |ChapterWords(spans, k, false)|);
  }

  /** A word has width. */
  lemma WordExtent(spans: seq<Span>, i: nat)
    requires i < |AllWords(spans)|
    ensures var w := AllWords(spans)[i];
            w.span < |spans| && w.start < w.end <= |Encode(spans[w.span].text)|
  {
    var a, b := Locate(spans, |spans|, false, i);
    var text := spans[AllWords(spans)[i].span].text;
    UnitsGrow(text, a, b);
    DecodeSlice(text, a, b);
  }

  // ------------------------------------------------------------- highlight

  /** The UTF-16 offsets a highlight cuts span `m` at. */
  function CutFrom(first: Word, m: nat): nat {
    if m == first.span then first.start else 0
  }

  function CutTo(spans: seq<Span>, last: Word, m: nat): nat
    requires m < |spans|
  {
    if m == last.span then last.end else |Encode(spans[m].text)|
  }

  predicate Cuttable(spans: seq<Span>, first: Word, last: Word) {
    && first.span <= last.span < |spans|
    && first.start <= |Encode(spans[first.span].text)|
    && last.end <= |Encode(spans[last.span].text)|
    && (first.span == last.span ==> first.start <= last.end)
  }

  /** `from_utf16_lossy` of the units `from..to` of `text`. */
  function Slice(text: string, from: nat, to: nat): string
    requires from <= to <= |Encode(text)|
  {
    DecodeLossy(Encode(text)[from..to])
  }

  /** What span `m` adds to the raw text. */
  function Piece(spans: seq<Span>, first: Word, last: Word, m: nat): string
    requires Cuttable(spans, first, last) && first.span <= m <= last.span
  {
    Slice(spans[m].text, CutFrom(first, m), CutTo(spans, last, m))
  }

  /** The raw text of spans `first.span..=m`, cut at the two words. */
  function RawText(spans: seq<Span>, first: Word, last: Word, m: nat): string
    requires Cuttable(spans, first, last) && first.span <= m <= last.span
  {
    if m == first.span then Piece(spans, first, last, m)
    else RawText(spans, first, last, m - 1) + Sep(spans, m) + Piece(spans, first, last, m)
  }

  lemma WordsCuttable(spans: seq<Span>, i: nat, j: nat)
    requires i <= j < |AllWords(spans)|
    ensures Cuttable(spans, AllWords(spans)[i], AllWords(spans)[j])
  {
    WordExtent(spans, i);
    WordExtent(spans, j);
    if i < j { WordsOrdered(spans, |spans|, i, j); }
  }

  /** Offsets into every span fit 32 bits, as they must: a chapter is read from at most 64 MiB. */
  predicate Measurable(spans: seq<Span>) {
    forall k :: 0 <= k < |spans| ==> |Encode(spans[k].text)| < U32_LIMIT
  }

  /** The KoboSpan range of words `i..=j`. */
  function RangeOf(chapter: Chapter, i: nat, j: nat): SpanRange
    requires Parsed(chapter) && Measurable(chapter.spans) && i <= j < |chapter.words|
  {
    WordsCuttable(chapter.spans, i, j);
    WordExtent(chapter.spans, i);
    WordExtent(chapter.spans, j);
    var first, last := chapter.words[i], chapter.words[j];
    SpanRange(chapter.href, chapter.spans[first.span].id, first.start, chapter.spans[last.span].id, last.end)
  }

  /** The text `Chapter::highlight` carries for words `i..=j`. */
  function HighlightText(spans: seq<Span>, i: nat, j: nat): string
    requires i <= j < |AllWords(spans)|
  {
    WordsCuttable(spans, i, j);
    var first, last := AllWords(spans)[i], AllWords(spans)[j];
    Collapse(RawText(spans, first, last, last.span))
  }

  lemma NoSep(s: string)
    ensures s + "" == s
  {}

  /** The raw text so far, before span `m` adds anything. */
  function RawBefore(spans: seq<Span>, first: Word, last: Word, m: nat): string
    requires Cuttable(spans, first, last) && first.span <= m <= last.span + 1
  {
    if m == first.span then "" else RawText(spans, first, last, m - 1)
  }

  lemma RawStep(spans: seq<Span>, first: Word, last: Word, m: nat)
    requires Cuttable(spans, first, last) && first.span <= m <= last.span
    ensures RawText(spans, first, last, m)
            == RawBefore(spans, first, last, m) + (if m == first.span then "" else Sep(spans, m)) + Piece(spans, first, last, m)
    ensures Piece(spans, first, last, m) == Slice(spans[m].text, CutFrom(first, m), CutTo(spans, last, m))
  {
    if m == first.span {
      assert "" + "" + Piece(spans, first, last, m) == Piece(spans, first, last, m);
    }
  }

  lemma RenderStep(spans: seq<Span>, first: Word, last: Word, m: nat)
    requires Cuttable(spans, first, last) && first.span <= m <= last.span
    ensures var raw := RawBefore(spans, first, last, m);
            RawBefore(spans, first, last, m + 1)
            == (if m > first.span && !SameParagraph(spans, m - 1, m) then raw + " " else raw)
               + Slice(spans[m].text, CutFrom(first, m), CutTo(spans, last, m))
  {
    RawStep(spans, first, last, m);
    NoSep(RawBefore(spans, first, last, m));
  }

  /** The loop of `Chapter::highlight`. */
  method Render(spans: seq<Span>, first: Word, last: Word) returns (raw: string)
    requires Cuttable(spans, first, last)
    ensures raw == RawText(spans, first, last, last.span)
  {
    raw := "";
    for m := first.span to last.span + 1
      invariant raw == RawBefore(spans, first, last, m)
    {
      RenderStep(spans, first, last, m);
      if m > first.span && !SameParagraph(spans, m - 1, m) {
        raw := raw + " ";
      }
      var from := if m == first.span then first.start else 0;
      var to := if m == last.span then last.end else |Encode(spans[m].text)|;
      raw := raw + Slice(spans[m].text, from, to);
    }
  }

  // ------------------------------------------------------ reading a location

  /** `spans.iter().position(|s| s.id == id)` among the spans from `from` on. */
  function Position(spans: seq<Span>, id: string, from: nat): (p: Option<nat>)
    requires from <= |spans|
    ensures match p
            case Some(k) => from <= k < |spans| && spans[k].id == id && forall m :: from <= m < k ==> spans[m].id != id
            case None => forall m :: from <= m < |spans| ==> spans[m].id != id
    decreases |spans| - from
  {
    if from == |spans| then None
    else if spans[from].id == id then Some(from)
    else Position(spans, id, from + 1)
  }

  predicate FirstOfItsId(spans: seq<Span>, k: nat) {
    k < |spans| && forall m :: 0 <= m < k ==> spans[m].id != spans[k].id
  }

  lemma FirstIsFound(spans: seq<Span>, k: nat)
    requires k < |spans|
    ensures Position(spans, spans[k].id, 0) == Some(k) <==> FirstOfItsId(spans, k)
  {}

  /**
   * What a reader sees from unit `from` of span `s` to unit `to` of span `e`: whole spans between, and a space where
   * a paragraph ends.
   */
  function CutText(spans: seq<Span>, s: nat, from: nat, e: nat, to: nat): string
    requires s <= e < |spans| && from <= |Encode(spans[s].text)| && to <= |Encode(spans[e].text)|
    requires s == e ==> from <= to
    decreases e - s
  {
    if s == e then DecodeLossy(Encode(spans[s].text)[from..to])
    else
      DecodeLossy(Encode(spans[s].text)[from..])
      + (if ParagraphKey(spans[s].id) == ParagraphKey(spans[s + 1].id) then "" else " ")
      + CutText(spans, s + 1, 0, e, to)
  }

  /** Between spans `s` and `e`, `range` cuts out `text` up to whitespace inside it, and no whitespace around it. */
  predicate Shows(spans: seq<Span>, range: SpanRange, s: nat, e: nat, text: string) {
    && s <= e < |spans| && spans[s].id == range.startSpan && spans[e].id == range.endSpan
    && range.startChar <= |Encode(spans[s].text)| && range.endChar <= |Encode(spans[e].text)|
    && (s == e ==> range.startChar <= range.endChar)
    && var cut := CutText(spans, s, range.startChar, e, range.endChar);
       Collapse(cut) == text && StartsInWord(cut) && EndsInWord(cut)
  }

  /** `range` shows `text` between the first spans with its two ids. */
  predicate ReadsAs(spans: seq<Span>, range: SpanRange, text: string) {
    var s, e := Position(spans, range.startSpan, 0), Position(spans, range.endSpan, 0);
    s.Some? && e.Some? && Shows(spans, range, s.value, e.value, text)
  }

  lemma Regroup(a: string, s: string, b: string, t: string, c: string)
    ensures (a + s + b) + t + c == a + s + (b + t + c)
  {}

  lemma {:induction false} RangeFromFront(spans: seq<Span>, k: nat, a: nat, l: nat, b: nat)
    requires k < l < |spans| && a <= |spans[k].text| && b <= |spans[l].text|
    ensures RangeText(spans, k, a, l, b) == spans[k].text[a..] + Sep(spans, k + 1) + RangeText(spans, k + 1, 0, l, b)
  {
    if l == k + 1 {
      RangeOfTwo(spans, k, a, b);
    } else {
      var n := |spans[l - 1].text|;
      RangeFromFront(spans, k, a, l - 1, n);
      RangeOneMore(spans, k, a, l, b, spans[k].text[a..], RangeText(spans, k + 1, 0, l - 1, n));
    }
  }

  lemma RangeOfTwo(spans: seq<Span>, k: nat, a: nat, b: nat)
    requires k + 1 < |spans| && a <= |spans[k].text| && b <= |spans[k + 1].text|
    ensures RangeText(spans, k, a, k + 1, b) == spans[k].text[a..] + Sep(spans, k + 1) + RangeText(spans, k + 1, 0, k + 1, b)
  {
    RangeUnrolls(spans, k, a, k + 1, b);
    RangeUnrolls(spans, k + 1, 0, k + 1, b);
    RangeOfOne(spans, k, a);
  }

  lemma RangeOneMore(spans: seq<Span>, k: nat, a: nat, l: nat, b: nat, head: string, middle: string)
    requires k + 1 < l < |spans| && a <= |spans[k].text| && b <= |spans[l].text|
    requires RangeText(spans, k, a, l - 1, |spans[l - 1].text|) == head + Sep(spans, k + 1) + middle
    requires RangeText(spans, k + 1, 0, l - 1, |spans[l - 1].text|) == middle
    ensures RangeText(spans, k, a, l, b) == head + Sep(spans, k + 1) + RangeText(spans, k + 1, 0, l, b)
  {
    RangeUnrolls(spans, k, a, l, b);
    RangeUnrolls(spans, k + 1, 0, l, b);
    Regroup(head, Sep(spans, k + 1), middle, Sep(spans, l), spans[l].text[..b]);
  }

  lemma RangeOfOne(spans: seq<Span>, k: nat, a: nat)
    requires k < |spans| && a <= |spans[k].text|
    ensures RangeText(spans, k, a, k, |spans[k].text|) == spans[k].text[a..]
  {}

  lemma RangeUnrolls(spans: seq<Span>, k: nat, a: nat, l: nat, b: nat)
    requires k <= l < |spans| && a <= |spans[k].text| && b <= |spans[l].text| && (k == l ==> a <= b)
    ensures RangeText(spans, k, a, l, b)
            == if k == l then spans[k].text[a..b]
               else RangeText(spans, k, a, l - 1, |spans[l - 1].text|) + Sep(spans, l) + spans[l].text[..b]
    ensures a == 0 && k == l ==> RangeText(spans, k, a, l, b) == spans[l].text[..b]
  {}

  lemma DecodeTail(text: string, a: nat)
    requires a <= |text|
    ensures UnitsTo(text, a) <= |Encode(text)| && DecodeLossy(Encode(text)[UnitsTo(text, a)..]) == text[a..]
  {
    DecodeSlice(text, a, |text|);
    assert text[a..|text|] == text[a..];
    assert Encode(text)[UnitsTo(text, a)..|Encode(text)|] == Encode(text)[UnitsTo(text, a)..];
  }

  /** The units at characters `a` of span `k` and `b` of span `l` can be cut at. */
  lemma Boundaries(spans: seq<Span>, k: nat, a: nat, l: nat, b: nat)
    requires k <= l < |spans| && a <= |spans[k].text| && b <= |spans[l].text| && (k == l ==> a <= b)
    ensures UnitsTo(spans[k].text, a) <= |Encode(spans[k].text)| && UnitsTo(spans[l].text, b) <= |Encode(spans[l].text)|
    ensures k == l ==> UnitsTo(spans[k].text, a) <= UnitsTo(spans[l].text, b)
  {
    DecodeTail(spans[k].text, a);
    DecodeTail(spans[l].text, b);
    if k == l { DecodeSlice(spans[k].text, a, b); }
  }

  /** What a reader sees between two character boundaries. */
  function CutAt(spans: seq<Span>, k: nat, a: nat, l: nat, b: nat): string
    requires k <= l < |spans| && a <= |spans[k].text| && b <= |spans[l].text| && (k == l ==> a <= b)
  {
    Boundaries(spans, k, a, l, b);
    CutText(spans, k, UnitsTo(spans[k].text, a), l, UnitsTo(spans[l].text, b))
  }

  lemma CutOfOne(spans: seq<Span>, k: nat, a: nat, b: nat)
    requires k < |spans| && a <= b <= |spans[k].text|
    ensures CutAt(spans, k, a, k, b) == spans[k].text[a..b]
  {
    DecodeSlice(spans[k].text, a, b);
  }

  lemma CutOfMore(spans: seq<Span>, k: nat, a: nat, l: nat, b: nat)
    requires k < l < |spans| && a <= |spans[k].text| && b <= |spans[l].text|
    ensures CutAt(spans, k, a, l, b) == spans[k].text[a..] + Sep(spans, k + 1) + CutAt(spans, k + 1, 0, l, b)
  {
    DecodeTail(spans[k].text, a);
  }

  lemma CutMatches(spans: seq<Span>, k: nat, a: nat, l: nat, b: nat, rest: string)
    requires k < l < |spans| && a <= |spans[k].text| && b <= |spans[l].text|
    requires CutAt(spans, k + 1, 0, l, b) == rest && RangeText(spans, k + 1, 0, l, b) == rest
    ensures CutAt(spans, k, a, l, b) == RangeText(spans, k, a, l, b)
  {
    CutOfMore(spans, k, a, l, b);
    RangeFromFront(spans, k, a, l, b);
  }

  /** Cut at character boundaries, a reader sees exactly the characters between. */
  lemma {:induction false} CutIsRange(spans: seq<Span>, k: nat, a: nat, l: nat, b: nat)
    requires k <= l < |spans| && a <= |spans[k].text| && b <= |spans[l].text| && (k == l ==> a <= b)
    ensures CutAt(spans, k, a, l, b) == RangeText(spans, k, a, l, b)
    decreases l - k
  {
    if k == l {
      CutOfOne(spans, k, a, b);
    } else {
      CutIsRange(spans, k + 1, 0, l, b);
      CutMatches(spans, k, a, l, b, RangeText(spans, k + 1, 0, l, b));
    }
  }

  /** A range of characters opens and closes with its outer characters. */
  lemma RangeEnds(spans: seq<Span>, k: nat, a: nat, l: nat, b: nat)
    requires k <= l < |spans| && a < |spans[k].text| && 0 < b <= |spans[l].text| && (k == l ==> a < b)
    requires !IsSpace(spans[k].text[a]) && !IsSpace(spans[l].text[b - 1])
    ensures StartsInWord(RangeText(spans, k, a, l, b)) && EndsInWord(RangeText(spans, k, a, l, b))
  {
    if k < l {
      RangeFromFront(spans, k, a, l, b);
      assert (spans[k].text[a..])[0] == spans[k].text[a];
    }
  }

  /** The characters a word opens and closes with. */
  lemma WordEnds(spans: seq<Span>, i: nat) returns (a: nat, b: nat)
    requires i < |AllWords(spans)|
    ensures var w := AllWords(spans)[i];
            && w.span < |spans|
            && var text := spans[w.span].text;
               a < b <= |text| && !IsSpace(text[a]) && !IsSpace(text[b - 1]) && w.start == UnitsTo(text, a) && w.end == UnitsTo(text, b)
  {
    a, b := Locate(spans, |spans|, false, i);
  }

  /** Words in one span: the first opens before the last closes. */
  lemma EndsApart(text: string, a: nat, b: nat)
    requires a <= |text| && b <= |text| && UnitsTo(text, a) < UnitsTo(text, b)
    ensures a < b
  {
    if b < a { UnitsGrow(text, b, a); }
  }

  lemma OpensBeforeCloses(spans: seq<Span>, i: nat, j: nat)
    requires i <= j < |AllWords(spans)|
    ensures var first, last := AllWords(spans)[i], AllWords(spans)[j];
            Cuttable(spans, first, last) && (first.span == last.span ==> first.start < last.end)
  {
    WordsCuttable(spans, i, j);
    WordExtent(spans, i);
    WordExtent(spans, j);
    if i < j { WordsOrdered(spans, |spans|, i, j); }
  }

  /** The cut at two words reads as what is rendered of them, and stops at their own characters. */
  lemma CutReads(spans: seq<Span>, i: nat, j: nat)
    requires i <= j < |AllWords(spans)|
    ensures var first, last := AllWords(spans)[i], AllWords(spans)[j];
            && Cuttable(spans, first, last)
            && var cut := CutText(spans, first.span, first.start, last.span, last.end);
               Collapse(cut) == HighlightText(spans, i, j) && StartsInWord(cut) && EndsInWord(cut)
  {
    var first, last := AllWords(spans)[i], AllWords(spans)[j];
    OpensBeforeCloses(spans, i, j);
    var a, a' := WordEnds(spans, i);
    var b', b := WordEnds(spans, j);
    if first.span == last.span { EndsApart(spans[first.span].text, a, b); }
    RawIsRange(spans, first, last, a, b, last.span);
    CutIsRange(spans, first.span, a, last.span, b);
    RangeEnds(spans, first.span, a, last.span, b);
  }

  /** What is promised of the location of a highlight over words from span `s` to span `e`. */
  predicate LocationReads(chapter: Chapter, s: nat, e: nat, location: Option<SpanRange>, text: string) {
    && location.Some? && location.value.chapter == chapter.href
    && Shows(chapter.spans, location.value, s, e, text)
    && (FirstOfItsId(chapter.spans, s) && FirstOfItsId(chapter.spans, e) ==> ReadsAs(chapter.spans, location.value, text))
  }

  /** A highlight's location reads as its text. */
  lemma HighlightLocation(chapter: Chapter, i: nat, j: nat)
    requires Parsed(chapter) && Measurable(chapter.spans) && i <= j < |chapter.words|
    ensures LocationReads(chapter, chapter.words[i].span, chapter.words[j].span, Some(RangeOf(chapter, i, j)),
                          HighlightText(chapter.spans, i, j))
  {
    CutReads(chapter.spans, i, j);
    FirstIsFound(chapter.spans, chapter.words[i].span);
    FirstIsFound(chapter.spans, chapter.words[j].span);
  }

  /** `Chapter::highlight`. */
  method Highlight<Color>(chapter: Chapter, i: nat, j: nat, color: Color, note: Option<string>)
    returns (h: NewHighlight<Color>)
    requires Parsed(chapter) && Measurable(chapter.spans) && i <= j < |chapter.words|
    ensures h == NewHighlight(HighlightText(chapter.spans, i, j), color, note, Some(RangeOf(chapter, i, j)))
    ensures LocationReads(chapter, chapter.words[i].span, chapter.words[j].span, h.location, h.text)
  {
    HighlightLocation(chapter, i, j);
    WordsCuttable(chapter.spans, i, j);
    WordExtent(chapter.spans, i);
    WordExtent(chapter.spans, j);
    var first, last := chapter.words[i], chapter.words[j];
    var raw := Render(chapter.spans, first, last);
    h := NewHighlight(Collapse(raw), color, note,
                      Some(SpanRange(chapter.href, chapter.spans[first.span].id, first.start,
                                     chapter.spans[last.span].id, last.end)));
  }

  /** What span `m` adds, as a run of its characters. */
  lemma PieceIsSlice(spans: seq<Span>, first: Word, last: Word, a: nat, b: nat, m: nat)
    requires Cuttable(spans, first, last) && first.span <= m <= last.span
    requires a <= |spans[first.span].text| && first.start == UnitsTo(spans[first.span].text, a)
    requires b <= |spans[last.span].text| && last.end == UnitsTo(spans[last.span].text, b)
    requires first.span == last.span ==> a <= b
    ensures var from, to := if m == first.span then a else 0, if m == last.span then b else |spans[m].text|;
            Piece(spans, first, last, m) == spans[m].text[from..to]
  {
    DecodeSlice(spans[m].text, if m == first.span then a else 0, if m == last.span then b else |spans[m].text|);
  }

  /** The UTF-16 cuts fall on the words' own character boundaries. */
  lemma {:induction false} RawIsRange(spans: seq<Span>, first: Word, last: Word, a: nat, b: nat, m: nat)
    requires Cuttable(spans, first, last) && first.span <= m <= last.span
    requires a <= |spans[first.span].text| && first.start == UnitsTo(spans[first.span].text, a)
    requires b <= |spans[last.span].text| && last.end == UnitsTo(spans[last.span].text, b)
    requires first.span == last.span ==> a <= b
    ensures RawText(spans, first, last, m)
            == RangeText(spans, first.span, a, m, if m == last.span then b else |spans[m].text|)
  {
    PieceIsSlice(spans, first, last, a, b, m);
    if m > first.span {
      RawIsRange(spans, first, last, a, b, m - 1);
      RawStep(spans, first, last, m);
    }
  }
}
