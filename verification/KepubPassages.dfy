/** Finding a passage: the tokens a copied passage would show, and where they match. */
module KepubPassages {
  import opened Basics
  import opened Text
  import opened Utf16
  import opened KepubWords
  import opened KepubText

  /** One spine chapter; `Kepub::parse` builds `words` with `words_in`. */
  datatype Chapter = Chapter(href: string, spans: seq<Span>, words: seq<Word>)

  predicate Parsed(chapter: Chapter) {
    chapter.words == AllWords(chapter.spans)
  }

  // ------------------------------------------------------- comparison words

  /** A run of glued words merged into the token a copied passage would show. */
  datatype Token = Token(text: string, first: nat, last: nat)

  function TokenPush(ts: seq<Token>, w: Word, i: nat): seq<Token> {
    if w.glued && ts != [] then
      ts[..|ts| - 1] + [Token(ts[|ts| - 1].text + w.text, ts[|ts| - 1].first, i)]
    else ts + [Token(w.text, i, i)]
  }

  /** `comparison_words` of the first `n` words. */
  function Tokens(words: seq<Word>, n: nat): (ts: seq<Token>)
    requires n <= |words|
    ensures (ts == []) == (n == 0)
  {
    if n == 0 then [] else TokenPush(Tokens(words, n - 1), words[n - 1], n - 1)
  }

  method ComparisonWords(words: seq<Word>) returns (tokens: seq<Token>)
    ensures tokens == Tokens(words, |words|)
  {
    tokens := [];
    for index := 0 to |words|
      invariant tokens == Tokens(words, index)
    {
      var word := words[index];
      if word.glued {
        if tokens != [] {
          var t := tokens[|tokens| - 1];
          tokens := tokens[..|tokens| - 1] + [Token(t.text + word.text, t.first, index)];
          continue;
        }
      }
      tokens := tokens + [Token(word.text, index, index)];
    }
  }

  predicate SameTexts(ts: seq<Token>, texts: seq<string>) {
    |ts| == |texts| && forall t :: 0 <= t < |ts| ==> ts[t].text == texts[t]
  }

  lemma SameTextsPush(ts: seq<Token>, texts: seq<string>, w: Word, i: nat)
    requires SameTexts(ts, texts)
    ensures SameTexts(TokenPush(ts, w, i), MergePush(texts, w))
  {}

  lemma TokenTextsStep(words: seq<Word>, n: nat)
    requires n < |words| && SameTexts(Tokens(words, n), Merged(words[..n]))
    ensures SameTexts(Tokens(words, n + 1), Merged(words[..n + 1]))
  {
    var before, w := words[..n], words[n];
    SameTextsPush(Tokens(words, n), Merged(before), w, n);
    MergedSnoc(before, w);
    assert words[..n + 1] == before + [w];
  }

  /** The tokens' texts are the merged words. */
  lemma {:induction false} TokenTexts(words: seq<Word>, n: nat)
    requires n <= |words|
    ensures SameTexts(Tokens(words, n), Merged(words[..n]))
  {
    if n > 0 {
      TokenTexts(words, n - 1);
      TokenTextsStep(words, n - 1);
    }
  }

  /** Token `t` covers a whole glue run, with `t` tokens before it. */
  predicate TokenAt(words: seq<Word>, n: nat, t: nat, tk: Token) {
    && tk.first <= tk.last < n <= |words|
    && (tk.first == 0 || !words[tk.first].glued)
    && (tk.last + 1 == n || !words[tk.last + 1].glued)
    && |Tokens(words, tk.first)| == t
    && |Tokens(words, tk.last + 1)| == t + 1
  }

  lemma {:induction false} TokenPlace(words: seq<Word>, n: nat, t: nat)
    requires n <= |words| && t < |Tokens(words, n)|
    ensures TokenAt(words, n, t, Tokens(words, n)[t])
  {
    var before, w := Tokens(words, n - 1), words[n - 1];
    if t < |before| {
      var tk := before[t];
      TokenPlace(words, n - 1, t);
      if tk.last + 1 < n - 1 {
        TokensGrowStrictly(words, tk.last + 1, n - 1);
        assert Tokens(words, n)[t] == tk;
      } else if !w.glued {
        assert Tokens(words, n)[t] == tk;
      } else {
        assert |before| == t + 1;
        assert Tokens(words, n)[t] == Token(tk.text + w.text, tk.first, n - 1);
      }
    } else {
      assert Tokens(words, n)[t] == Token(w.text, n - 1, n - 1);
    }
  }

  lemma {:induction false} TokensGrowStrictly(words: seq<Word>, m: nat, n: nat)
    requires m < n <= |words| && !words[m].glued
    ensures |Tokens(words, m)| < |Tokens(words, n)|
  {
    TokensGrow(words, m + 1, n);
  }

  lemma PushKeeps(p: seq<Token>, ts: seq<Token>, w: Word, i: nat)
    requires p <= ts && (!w.glued || |p| < |ts|)
    ensures p <= TokenPush(ts, w, i)
  {}

  /** Tokens already closed stay as they are. */
  lemma {:induction false} TokensPrefix(words: seq<Word>, m: nat, n: nat)
    requires m < n <= |words| && !words[m].glued
    ensures Tokens(words, m) <= Tokens(words, n)
  {
    if m < n - 1 {
      TokensPrefix(words, m, n - 1);
      TokensGrowStrictly(words, m, n - 1);
    }
    OnePushed(words, m, n - 1);
  }

  lemma OnePushed(words: seq<Word>, m: nat, n: nat)
    requires m <= n < |words| && Tokens(words, m) <= Tokens(words, n)
    requires words[n].glued ==> |Tokens(words, m)| < |Tokens(words, n)|
    ensures Tokens(words, m) <= Tokens(words, n + 1)
  {
    PushKeeps(Tokens(words, m), Tokens(words, n), words[n], n);
  }

  lemma {:induction false} TokensGrow(words: seq<Word>, m: nat, n: nat)
    requires m <= n <= |words|
    ensures |Tokens(words, m)| <= |Tokens(words, n)|
  {
    if m < n { TokensGrow(words, m, n - 1); }
  }

  lemma SameTextsTail(ts: seq<Token>, x: seq<string>, y: seq<string>)
    requires SameTexts(ts, x + y)
    ensures |x| <= |ts| && SameTexts(ts[|x|..], y)
  {
    forall t | 0 <= t < |y| ensures ts[|x|..][t].text == y[t] {
      assert (x + y)[|x| + t] == y[t];
    }
  }

  /** The merged words `i..e` are the tokens between those of the first `i` and of the first `e` words. */
  lemma MergedBetween(words: seq<Word>, i: nat, e: nat)
    requires i < e <= |words| && (i == 0 || !words[i].glued)
    ensures |Tokens(words, i)| <= |Tokens(words, e)|
    ensures SameTexts(Tokens(words, e)[|Tokens(words, i)|..], Merged(words[i..e]))
  {
    var before, here := words[..i], words[i..e];
    TokenTexts(words, i);
    TokenTexts(words, e);
    MergedApart(before, here);
    assert words[..e] == before + here;
    TokensTail(Tokens(words, i), Tokens(words, e), Merged(before), Merged(here));
  }

  lemma TokensTail(ti: seq<Token>, te: seq<Token>, x: seq<string>, y: seq<string>)
    requires SameTexts(ti, x) && SameTexts(te, x + y)
    ensures |ti| <= |te| && SameTexts(te[|ti|..], y)
  {
    SameTextsTail(te, x, y);
  }

  lemma PrefixSlice<T>(x: seq<T>, y: seq<T>, a: nat)
    requires x <= y && a <= |x|
    ensures x[a..] == y[a..|x|]
  {}

  lemma TokenSpan(words: seq<Word>, a: nat, b: nat, i: nat, e: nat)
    requires a <= b && i < |words| && 0 < e <= |words| && (i == 0 || !words[i].glued) && (e == |words| || !words[e].glued)
    requires |Tokens(words, i)| == a && |Tokens(words, e)| == b + 1 <= |Tokens(words, |words|)|
    ensures i < e && SameTexts(Tokens(words, |words|)[a..b + 1], Merged(words[i..e]))
  {
    if e <= i {
      TokensGrow(words, e, i);
    }
    MergedBetween(words, i, e);
    if e < |words| { TokensPrefix(words, e, |words|); }
    PrefixSlice(Tokens(words, e), Tokens(words, |words|), a);
  }

  /** The words from the first of `ta` to the last of `tb`, merged, are tokens `a..=b`. */
  predicate TokensRead(words: seq<Word>, ta: Token, tb: Token, a: nat, b: nat) {
    && a <= b < |Tokens(words, |words|)|
    && ta.first <= tb.last < |words|
    && (ta.first == 0 || !words[ta.first].glued)
    && SameTexts(Tokens(words, |words|)[a..b + 1], Merged(words[ta.first..tb.last + 1]))
  }

  lemma TokensBetween(words: seq<Word>, ta: Token, tb: Token, a: nat, b: nat)
    requires a <= b < |Tokens(words, |words|)| && TokenAt(words, |words|, a, ta) && TokenAt(words, |words|, b, tb)
    ensures TokensRead(words, ta, tb, a, b)
  {
    var i, e := ta.first, tb.last + 1;
    assert |Tokens(words, i)| == a && |Tokens(words, e)| == b + 1;
    TokenSpan(words, a, b, i, e);
  }

  lemma TokenRange(words: seq<Word>, a: nat, b: nat)
    requires a <= b < |Tokens(words, |words|)|
    ensures TokensRead(words, Tokens(words, |words|)[a], Tokens(words, |words|)[b], a, b)
  {
    TokenPlace(words, |words|, a);
    TokenPlace(words, |words|, b);
    TokensBetween(words, Tokens(words, |words|)[a], Tokens(words, |words|)[b], a, b);
  }

  // ------------------------------------------------------------ find_passage

  predicate MatchesAt(tokens: seq<Token>, needle: seq<string>, start: nat) {
    start + |needle| <= |tokens| && forall o :: 0 <= o < |needle| ==> tokens[start + o].text == needle[o]
  }

  ghost predicate HoldsPassage(chapter: Chapter, needle: seq<string>) {
    exists s: nat :: MatchesAt(Tokens(chapter.words, |chapter.words|), needle, s)
  }

  /** `words` of `chapter` are the first run of its tokens reading `needle`. */
  predicate FirstRun(chapter: Chapter, needle: seq<string>, s: nat, first: nat, last: nat) {
    var ts := Tokens(chapter.words, |chapter.words|);
    && needle != [] && MatchesAt(ts, needle, s)
    && first == ts[s].first && last == ts[s + |needle| - 1].last
    && forall s' :: 0 <= s' < s ==> !MatchesAt(ts, needle, s')
  }

  /** A chapter has one first run of a passage, and no run of its tokens before it reads the passage. */
  lemma FirstRunOnce(chapter: Chapter, needle: seq<string>, s: nat, first: nat, last: nat, s': nat, first': nat, last': nat)
    requires FirstRun(chapter, needle, s, first, last) && FirstRun(chapter, needle, s', first', last')
    ensures s == s' && first == first' && last == last'
  {}

  /** `Kepub::find_passage`: the first match in spine order, or none anywhere. */
  method FindPassage(chapters: seq<Chapter>, passage: string) returns (found: Option<(nat, nat, nat)>)
    ensures found.None? <==>
              Split(passage) == [] || forall c :: 0 <= c < |chapters| ==> !HoldsPassage(chapters[c], Split(passage))
    ensures found.Some? ==>
              var (c, first, last) := found.value;
              && c < |chapters|
              && (exists s: nat :: FirstRun(chapters[c], Split(passage), s, first, last))
              && forall c' :: 0 <= c' < c ==> !HoldsPassage(chapters[c'], Split(passage))
  {
    var needle := Split(passage);
    if needle == [] {
      return None;
    }
    for c := 0 to |chapters|
      invariant forall c' :: 0 <= c' < c ==> !HoldsPassage(chapters[c'], needle)
    {
      var tokens := ComparisonWords(chapters[c].words);
      if |needle| > |tokens| {
        continue;
      }
      for start := 0 to |tokens| - |needle| + 1
        invariant forall s :: 0 <= s < start ==> !MatchesAt(tokens, needle, s)
      {
        var matches := AllMatch(tokens, needle, start);
        if matches {
          assert FirstRun(chapters[c], needle, start, tokens[start].first, tokens[start + |needle| - 1].last);
          return Some((c, tokens[start].first, tokens[start + |needle| - 1].last));
        }
      }
    }
    return None;
  }

  method AllMatch(tokens: seq<Token>, needle: seq<string>, start: nat) returns (all: bool)
    requires start + |needle| <= |tokens|
    ensures all == MatchesAt(tokens, needle, start)
  {
    for o := 0 to |needle|
      invariant forall o' :: 0 <= o' < o ==> tokens[start + o'].text == needle[o']
    {
      if tokens[start + o].text != needle[o] {
        return false;
      }
    }
    return true;
  }
}
