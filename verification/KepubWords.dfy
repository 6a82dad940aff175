/** The words of a chapter's koboSpans (`words_in`) and what joins two of them into one token. */
module KepubWords {
  import opened Basics
  import opened Text
  import opened Utf16

  datatype Span = Span(id: string, text: string)

  /** `start` and `end` are UTF-16 offsets into `spans[span].text`; `end` is exclusive. */
  datatype Word = Word(span: nat, text: string, start: nat, end: nat, glued: bool)

  /** `rsplit_once('.')`'s left half. */
  function BeforeLastDot(id: string): Option<string> {
    if id == [] then None
    else if id[|id| - 1] == '.' then Some(id[..|id| - 1])
    else BeforeLastDot(id[..|id| - 1])
  }

  /** `paragraph_key`: the `kobo.N` every span of one paragraph shares. */
  function ParagraphKey(id: string): string {
    match BeforeLastDot(id)
    case Some(prefix) => prefix
    case None => id
  }

  // ---------------------------------------------------------------- one span

  /** Whether the first `c` characters of `text` stop inside a word. */
  predicate InWord(text: string, c: nat)
    requires c <= |text|
  {
    c > 0 && !IsSpace(text[c - 1])
  }

  /**
   * The words of the first `c` characters of span `k`'s text; only one opening the span can be
   * glued to what came before.
   */
  function SpanWords(k: nat, text: string, c: nat, canGlue: bool): (ws: seq<Word>)
    requires c <= |text|
    ensures InWord(text, c) ==> ws != []
  {
    if c == 0 then []
    else
      var ws := SpanWords(k, text, c - 1, canGlue);
      if IsSpace(text[c - 1]) then ws
      else if InWord(text, c - 1) then Grow(ws, text[c - 1], UnitsTo(text, c))
      else ws + [Word(k, [text[c - 1]], UnitsTo(text, c - 1), UnitsTo(text, c), canGlue && c == 1)]
  }

  /** The last word, one character longer. */
  function Grow(ws: seq<Word>, c: char, end: nat): seq<Word>
    requires ws != []
  {
    var w := ws[|ws| - 1];
    ws[..|ws| - 1] + [w.(text := w.text + [c], end := end)]
  }

  /** `w` is the maximal run of non-whitespace `text[a..b]` within the first `c` characters. */
  predicate IsRun(w: Word, text: string, c: nat, a: nat, b: nat) {
    && a < b <= c <= |text|
    && w.text == text[a..b]
    && (forall i :: a <= i < b ==> !IsSpace(text[i]))
    && w.start == UnitsTo(text, a) && w.end == UnitsTo(text, b)
    && !InWord(text, a) && (b == c || IsSpace(text[b]))
  }

  /** Word `n` of a span is the run `text[a..b]`, with `n` words before it and `n + 1` up to its end. */
  predicate WordAt(k: nat, text: string, c: nat, canGlue: bool, n: nat, a: nat, b: nat) {
    && c <= |text|
    && var ws := SpanWords(k, text, c, canGlue);
    && n < |ws|
    && IsRun(ws[n], text, c, a, b)
    && ws[n].span == k
    && ws[n].glued == (canGlue && a == 0)
    && |SpanWords(k, text, a, canGlue)| == n
    && |SpanWords(k, text, b, canGlue)| == n + 1
  }

  /** Stopping earlier, not inside a word, gives a prefix of the words. */
  lemma {:induction false} SpanPrefix(k: nat, text: string, canGlue: bool, b: nat, c: nat)
    requires b < c <= |text| && (!InWord(text, b) || IsSpace(text[b]))
    ensures SpanWords(k, text, b, canGlue) <= SpanWords(k, text, c, canGlue)
    ensures InWord(text, c) ==> |SpanWords(k, text, b, canGlue)| < |SpanWords(k, text, c, canGlue)|
  {
    if b < c - 1 {
      SpanPrefix(k, text, canGlue, b, c - 1);
    }
  }

  lemma WordAtKept(k: nat, text: string, c: nat, canGlue: bool, n: nat, a: nat, b: nat)
    requires c < |text| && WordAt(k, text, c, canGlue, n, a, b)
    requires b < c || IsSpace(text[c])
    ensures WordAt(k, text, c + 1, canGlue, n, a, b)
  {
    if b < c {
      SpanPrefix(k, text, canGlue, b, c);
      SpanPrefix(k, text, canGlue, b, c + 1);
      assert SpanWords(k, text, c, canGlue)[n] == SpanWords(k, text, b, canGlue)[n];
    }
  }

  lemma WordAtGrown(k: nat, text: string, c: nat, canGlue: bool, n: nat, a: nat)
    requires c < |text| && WordAt(k, text, c, canGlue, n, a, c) && !IsSpace(text[c])
    ensures WordAt(k, text, c + 1, canGlue, n, a, c + 1)
  {
    assert text[a..c] + [text[c]] == text[a..c + 1];
  }

  lemma WordAtNew(k: nat, text: string, c: nat, canGlue: bool)
    requires c < |text| && !InWord(text, c) && !IsSpace(text[c])
    ensures WordAt(k, text, c + 1, canGlue, |SpanWords(k, text, c, canGlue)|, c, c + 1)
  {
    assert text[c..c + 1] == [text[c]];
  }

  /** Where the word ending at `b` ends once character `c` is read too. */
  function EndAfter(text: string, c: nat, b: nat): nat
    requires c < |text|
  {
    if b == c && !IsSpace(text[c]) then c + 1 else b
  }

  lemma WordAtStep(k: nat, text: string, c: nat, canGlue: bool, n: nat, a: nat, b: nat)
    requires c < |text| && WordAt(k, text, c, canGlue, n, a, b)
    ensures WordAt(k, text, c + 1, canGlue, n, a, EndAfter(text, c, b))
  {
    if b == c && !IsSpace(text[c]) {
      WordAtGrown(k, text, c, canGlue, n, a);
    } else {
      WordAtKept(k, text, c, canGlue, n, a, b);
    }
  }

  lemma {:induction false} SpanWordBounds(k: nat, text: string, c: nat, canGlue: bool, n: nat) returns (a: nat, b: nat)
    requires c <= |text| && n < |SpanWords(k, text, c, canGlue)|
    ensures WordAt(k, text, c, canGlue, n, a, b)
  {
    GrowsByOne(k, text, c - 1, canGlue);
    if n == |SpanWords(k, text, c - 1, canGlue)| {
      WordAtNew(k, text, c - 1, canGlue);
      a, b := c - 1, c;
    } else {
      a, b := SpanWordBounds(k, text, c - 1, canGlue, n);
      WordAtStep(k, text, c - 1, canGlue, n, a, b);
      b := EndAfter(text, c - 1, b);
    }
  }

  /** One more character adds a word exactly when it opens one. */
  lemma GrowsByOne(k: nat, text: string, c: nat, canGlue: bool)
    requires c < |text|
    ensures |SpanWords(k, text, c + 1, canGlue)| == |SpanWords(k, text, c, canGlue)| + if !InWord(text, c) && !IsSpace(text[c]) then 1 else 0
  {}

  /** A word running at the end of what was read is its last. */
  lemma LastWordHolds(k: nat, text: string, c: nat, canGlue: bool) returns (n: nat, a: nat, b: nat)
    requires 0 < c <= |text| && !IsSpace(text[c - 1])
    ensures WordAt(k, text, c, canGlue, n, a, b) && a <= c - 1 < b
  {
    n := |SpanWords(k, text, c, canGlue)| - 1;
    a, b := SpanWordBounds(k, text, c, canGlue, n);
    if b < c {
      SpanPrefix(k, text, canGlue, b, c);
    }
  }

  /** Every non-whitespace character of a span belongs to one of its words. */
  lemma {:induction false} SpanCovered(k: nat, text: string, c: nat, canGlue: bool, i: nat) returns (n: nat, a: nat, b: nat)
    requires i < c <= |text| && !IsSpace(text[i])
    ensures WordAt(k, text, c, canGlue, n, a, b) && a <= i < b
  {
    if i < c - 1 {
      n, a, b := SpanCovered(k, text, c - 1, canGlue, i);
      WordAtStep(k, text, c - 1, canGlue, n, a, b);
      b := EndAfter(text, c - 1, b);
    } else {
      n, a, b := LastWordHolds(k, text, c, canGlue);
    }
  }

  // ------------------------------------------------------------- a chapter

  predicate SameParagraph(spans: seq<Span>, i: nat, j: nat)
    requires i < |spans| && j < |spans|
  {
    ParagraphKey(spans[i].id) == ParagraphKey(spans[j].id)
  }

  /** No paragraph ends between span `p` and span `k`. */
  predicate Unbroken(spans: seq<Span>, p: nat, k: nat)
    requires k < |spans|
  {
    p < k ==> SameParagraph(spans, k - 1, k) && Unbroken(spans, p, k - 1)
  }

  /** The last of the first `n` spans that has any text. */
  function LastText(spans: seq<Span>, n: nat): (p: Option<nat>)
    requires n <= |spans|
    ensures p.Some? ==> p.value < n && spans[p.value].text != []
  {
    if n == 0 then None
    else if spans[n - 1].text != [] then Some(n - 1)
    else LastText(spans, n - 1)
  }

  /**
   * Whether a word opening span `k` continues the word before it. `strict` adds what the
   * rendered text needs and `words_in` does not check: that no other paragraph's (empty) span
   * lies between the two.
   */
  predicate CanGlue(spans: seq<Span>, k: nat, strict: bool)
    requires k < |spans|
  {
    match LastText(spans, k)
    case None => false
    case Some(p) =>
      && EndsInWord(spans[p].text)
      && SameParagraph(spans, p, k)
      && (strict ==> Unbroken(spans, p, k))
  }

  /** The words of the first `n` spans. */
  function ChapterWords(spans: seq<Span>, n: nat, strict: bool): seq<Word>
    requires n <= |spans|
  {
    if n == 0 then []
    else ChapterWords(spans, n - 1, strict) + SpanWords(n - 1, spans[n - 1].text, |spans[n - 1].text|, CanGlue(spans, n - 1, strict))
  }

  /** What `words_in` returns. */
  function AllWords(spans: seq<Span>): seq<Word> {
    ChapterWords(spans, |spans|, false)
  }

  /** `words_in`. */
  method WordsIn(spans: seq<Span>) returns (words: seq<Word>)
    ensures words == AllWords(spans)
  {
    words := [];
    var glueNext := false;
    var prevParagraph: Option<string> := None;
    for index := 0 to |spans|
      invariant words == ChapterWords(spans, index, false)
      invariant match LastText(spans, index)
                case None => !glueNext && prevParagraph.None?
                case Some(p) => glueNext == EndsInWord(spans[p].text)
                                && prevParagraph == Some(ParagraphKey(spans[p].id))
    {
      var span := spans[index];
      if span.text == [] {
        continue;
      }
      var paragraph := ParagraphKey(span.id);
      var canGlue := glueNext && prevParagraph == Some(paragraph);
      assert canGlue == CanGlue(spans, index, false);
      var found, open := ScanSpan(index, span.text, canGlue);
      words := words + found;
      glueNext := open;
      prevParagraph := Some(paragraph);
    }
  }

  lemma StepOfSpan(k: nat, text: string, i: nat, canGlue: bool)
    requires i < |text|
    ensures var ws := SpanWords(k, text, i, canGlue);
            SpanWords(k, text, i + 1, canGlue) ==
            if IsSpace(text[i]) then ws
            else if InWord(text, i) then Grow(ws, text[i], UnitsTo(text, i + 1))
            else ws + [Word(k, [text[i]], UnitsTo(text, i), UnitsTo(text, i + 1), canGlue && i == 0)]
  {}

  /** The word running at character `c` of a span, and where `words_in` noted that it started. */
  function Open(index: nat, text: string, c: nat, start: nat, from: nat, glued: bool): Word
    requires from <= c <= |text|
  {
    Word(index, text[from..c], start, UnitsTo(text, c), glued && from == 0)
  }

  /** Where the inner loop stands before character `c`: `words` are closed, `running` is the word still open. */
  predicate Scanned(index: nat, text: string, c: nat, canGlue: bool, words: seq<Word>, running: Option<(nat, nat)>) {
    && c <= |text| && running.Some? == InWord(text, c)
    && (c == 0 ==> words == [])
    && (running.Some? ==> running.value.1 < c && (running.value.1 == 0 ==> words == []))
    && SpanWords(index, text, c, canGlue)
       == if running.None? then words
          else words + [Open(index, text, c, running.value.0, running.value.1, words == [] && canGlue)]
  }

  lemma ScanSpace(index: nat, text: string, c: nat, canGlue: bool, words: seq<Word>, running: Option<(nat, nat)>)
    requires Scanned(index, text, c, canGlue, words, running) && c < |text| && IsSpace(text[c])
    ensures Scanned(index, text, c + 1, canGlue, SpanWords(index, text, c, canGlue), None)
  {
    StepOfSpan(index, text, c, canGlue);
  }

  lemma ScanOpens(index: nat, text: string, c: nat, canGlue: bool, words: seq<Word>)
    requires Scanned(index, text, c, canGlue, words, None) && c < |text| && !IsSpace(text[c])
    ensures Scanned(index, text, c + 1, canGlue, words, Some((UnitsTo(text, c), c)))
  {
    OneCharacter(text, c);
    StepOfSpan(index, text, c, canGlue);
    var begun := Open(index, text, c + 1, UnitsTo(text, c), c, words == [] && canGlue);
    assert begun == Word(index, [text[c]], UnitsTo(text, c), UnitsTo(text, c + 1), canGlue && c == 0);
  }

  lemma OneCharacter(text: string, c: nat)
    requires c < |text|
    ensures text[c..c + 1] == [text[c]]
  {}

  lemma ScanGrows(index: nat, text: string, c: nat, canGlue: bool, words: seq<Word>, running: Option<(nat, nat)>)
    requires Scanned(index, text, c, canGlue, words, running) && running.Some? && c < |text| && !IsSpace(text[c])
    ensures Scanned(index, text, c + 1, canGlue, words, running)
  {
    StepOfSpan(index, text, c, canGlue);
    assert text[running.value.1..c] + [text[c]] == text[running.value.1..c + 1];
  }

  /** The inner loop of `words_in`; `open` reports a word still running at the end. */
  method ScanSpan(index: nat, text: string, canGlue: bool) returns (words: seq<Word>, open: bool)
    ensures words == SpanWords(index, text, |text|, canGlue)
    ensures open == EndsInWord(text)
  {
    words := [];
    var utf16 := 0;
    var running: Option<(nat, nat)> := None;
    var firstWord := true;
    for i := 0 to |text|
      invariant utf16 == UnitsTo(text, i) && firstWord == (words == [])
      invariant Scanned(index, text, i, canGlue, words, running)
    {
      var c := text[i];
      if IsSpace(c) {
        ScanSpace(index, text, i, canGlue, words, running);
        if running.Some? {
          var (start, from) := running.value;
          words := words + [Word(index, text[from..i], start, utf16, firstWord && canGlue && from == 0)];
          firstWord := false;
          running := None;
        }
      } else if running.None? {
        ScanOpens(index, text, i, canGlue, words);
        running := Some((utf16, i));
      } else {
        ScanGrows(index, text, i, canGlue, words, running);
      }
      utf16 := utf16 + Width(c);
    }
    open := running.Some?;
    if running.Some? {
      var (start, from) := running.value;
      words := words + [Word(index, text[from..|text|], start, utf16, firstWord && canGlue && from == 0)];
    }
  }
}
