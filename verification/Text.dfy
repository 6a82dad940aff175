/** Rust's whitespace, `split_whitespace` and the joined form of its words. */
module Text {

  /** `char::is_whitespace`: the Unicode White_Space property. */
  predicate IsSpace(c: char) {
    var u := c as int;
    || 0x09 <= u <= 0x0D || u == 0x20 || u == 0x85 || u == 0xA0 || u == 0x1680
    || 0x2000 <= u <= 0x200A || u == 0x2028 || u == 0x2029 || u == 0x202F || u == 0x205F || u == 0x3000
  }

  /** `to_ascii_lowercase`, of a character and of a text. */
  function LowerChar(c: char): char {
    if 'A' <= c <= 'Z' then (c as int + 32) as char else c
  }

  function Lower(s: string): string {
    if s == [] then [] else [LowerChar(s[0])] + Lower(s[1..])
  }

  /** One character, or the two cases of one ASCII letter. */
  predicate SameLetter(c: char, d: char) {
    || c == d
    || ('A' <= c <= 'Z' && d as int == c as int + 32)
    || ('A' <= d <= 'Z' && c as int == d as int + 32)
  }

  /** The same text up to the case of ASCII letters. */
  predicate SameButCase(s: string, t: string) {
    |s| == |t| && forall i :: 0 <= i < |s| ==> SameLetter(s[i], t[i])
  }

  /** Whether `s` stops inside a word. */
  predicate EndsInWord(s: string) {
    s != [] && !IsSpace(s[|s| - 1])
  }

  /** Whether `s` opens with a word. */
  predicate StartsInWord(s: string) {
    s != [] && !IsSpace(s[0])
  }

  predicate IsWord(s: string) {
    s != [] && forall i :: 0 <= i < |s| ==> !IsSpace(s[i])
  }

  /** The words so far after one more character; `open` says a word is still running. */
  function Push(ws: seq<string>, open: bool, c: char): seq<string>
    requires open ==> ws != []
  {
    if IsSpace(c) then ws
    else if open then ws[..|ws| - 1] + [ws[|ws| - 1] + [c]]
    else ws + [[c]]
  }

  /** `str::split_whitespace`: the maximal runs of non-whitespace, in order. */
  function Split(s: string): (ws: seq<string>)
    ensures EndsInWord(s) ==> ws != []
  {
    if s == [] then [] else Push(Split(s[..|s| - 1]), EndsInWord(s[..|s| - 1]), s[|s| - 1])
  }

  /** `join(" ")`. */
  function Join(ws: seq<string>): string {
    if ws == [] then ""
    else if |ws| == 1 then ws[0]
    else Join(ws[..|ws| - 1]) + " " + ws[|ws| - 1]
  }

  /** `collapse_whitespace`. */
  function Collapse(s: string): string {
    Join(Split(s))
  }

  /** Two word lists laid end to end, the last word of one run on into the first of the other. */
  function Fuse(a: seq<string>, b: seq<string>): seq<string>
    requires a != [] && b != []
  {
    a[..|a| - 1] + [a[|a| - 1] + b[0]] + b[1..]
  }

  lemma SplitSnoc(s: string, c: char)
    ensures Split(s + [c]) == Push(Split(s), EndsInWord(s), c)
  {
    assert (s + [c])[..|s|] == s;
  }

  lemma {:induction false} SplitGivesWords(s: string)
    ensures forall i :: 0 <= i < |Split(s)| ==> IsWord(Split(s)[i])
  {
    if s != [] {
      SplitGivesWords(s[..|s| - 1]);
    }
  }

  lemma FusePush(a: seq<string>, b: seq<string>, open: bool, c: char)
    requires a != [] && b != []
    ensures Push(Fuse(a, b), open, c) == Fuse(a, Push(b, open, c))
  {
    if open && |b| == 1 {
      assert (a[|a| - 1] + b[0]) + [c] == a[|a| - 1] + (b[0] + [c]);
    }
  }

  lemma ConcatPush(a: seq<string>, b: seq<string>, open: bool, c: char)
    requires open ==> b != []
    ensures Push(a + b, open, c) == a + Push(b, open, c)
  {}

  /** A cut inside a word: the two halves' words are fused. */
  lemma {:induction false} SplitFused(a: string, b: string)
    requires EndsInWord(a) && StartsInWord(b)
    ensures Split(a) != [] && Split(b) != [] && Split(a + b) == Fuse(Split(a), Split(b))
    decreases |b|
  {
    var init, c := b[..|b| - 1], b[|b| - 1];
    assert b == init + [c] && a + b == (a + init) + [c];
    SplitSnoc(a + init, c);
    SplitSnoc(init, c);
    if init == [] {
      assert a + init == a;
    } else {
      assert init[0] == b[0];
      SplitFused(a, init);
      FusePush(Split(a), Split(init), EndsInWord(init), c);
    }
  }

  /** A cut beside whitespace, or at either end: the two halves' words follow one another. */
  lemma {:induction false} SplitApart(a: string, b: string)
    requires !(EndsInWord(a) && StartsInWord(b))
    ensures Split(a + b) == Split(a) + Split(b)
    decreases |b|
  {
    if b == [] {
      assert a + b == a;
    } else {
      var init, c := b[..|b| - 1], b[|b| - 1];
      assert b == init + [c] && a + b == (a + init) + [c];
      SplitSnoc(a + init, c);
      SplitSnoc(init, c);
      if init == [] {
        assert a + init == a;
      } else {
        assert init[0] == b[0];
        SplitApart(a, init);
        ConcatPush(Split(a), Split(init), EndsInWord(init), c);
      }
    }
  }

  /** One more word after a space. */
  lemma SplitAppend(s: string, w: string)
    requires IsWord(w)
    ensures Split(s + " " + w) == Split(s) + [w]
    ensures EndsInWord(s + " " + w)
  {
    var spaced := s + [' '];
    assert s + " " + w == spaced + w;
    SplitSnoc(s, ' ');
    SplitWord(w);
    SplitApart(spaced, w);
    assert (spaced + w)[|spaced + w| - 1] == w[|w| - 1];
  }

  /** A list of words survives being joined and split again. */
  lemma {:induction false} SplitJoin(ws: seq<string>)
    requires forall i :: 0 <= i < |ws| ==> IsWord(ws[i])
    ensures Split(Join(ws)) == ws
    ensures ws != [] ==> EndsInWord(Join(ws))
  {
    if |ws| == 1 {
      SplitWord(ws[0]);
    } else if |ws| > 1 {
      SplitJoin(ws[..|ws| - 1]);
      SplitAppend(Join(ws[..|ws| - 1]), ws[|ws| - 1]);
    }
  }

  lemma {:induction false} SplitWord(w: string)
    requires IsWord(w)
    ensures Split(w) == [w]
  {
    var init, c := w[..|w| - 1], w[|w| - 1];
    assert w == init + [c];
    SplitSnoc(init, c);
    if init != [] {
      SplitWord(init);
    }
  }

  /** Collapsing reads every text through its words alone, so it is idempotent. */
  lemma CollapseKeepsWords(s: string)
    ensures Split(Collapse(s)) == Split(s)
    ensures Collapse(Collapse(s)) == Collapse(s)
  {
    SplitGivesWords(s);
    SplitJoin(Split(s));
  }

  // ------------------------------------------------------------- white space

  /** The 25 characters with the White_Space property, one by one. */
  lemma SpacesListed(c: char)
    ensures IsSpace(c) <==>
              c as int in [0x09, 0x0A, 0x0B, 0x0C, 0x0D, 0x20, 0x85, 0xA0, 0x1680, 0x2000, 0x2001, 0x2002, 0x2003, 0x2004,
                           0x2005, 0x2006, 0x2007, 0x2008, 0x2009, 0x200A, 0x2028, 0x2029, 0x202F, 0x205F, 0x3000]
  {}

  // ------------------------------------------------------------- ASCII case

  lemma LetterCase(c: char, d: char)
    ensures LowerChar(c) == LowerChar(d) <==> SameLetter(c, d)
    ensures SameLetter(LowerChar(c), c) && !('A' <= LowerChar(c) <= 'Z')
  {}

  lemma {:induction false} LowerShape(s: string)
    ensures |Lower(s)| == |s| && forall i :: 0 <= i < |s| ==> Lower(s)[i] == LowerChar(s[i])
  {
    if s != [] {
      LowerShape(s[1..]);
    }
  }

  /** Lowering leaves no capital letter, and makes two texts alike exactly when they differ by ASCII case at most. */
  lemma LowerIsCase(s: string, t: string)
    ensures Lower(s) == Lower(t) <==> SameButCase(s, t)
    ensures SameButCase(Lower(s), s) && forall i :: 0 <= i < |Lower(s)| ==> !('A' <= Lower(s)[i] <= 'Z')
  {
    LowerShape(s);
    LowerShape(t);
    forall i | 0 <= i < |s| ensures SameLetter(LowerChar(s[i]), s[i]) && !('A' <= LowerChar(s[i]) <= 'Z') {
      LetterCase(s[i], s[i]);
    }
    if |s| == |t| {
      forall i | 0 <= i < |s| ensures Lower(s)[i] == Lower(t)[i] <==> SameLetter(s[i], t[i]) {
        LetterCase(s[i], t[i]);
      }
    }
  }

  /** A text without capitals is its own lower case. */
  lemma {:induction false} LowerStays(s: string)
    requires forall i :: 0 <= i < |s| ==> !('A' <= s[i] <= 'Z')
    ensures Lower(s) == s
  {
    if s != [] {
      LowerStays(s[1..]);
      assert s == [s[0]] + s[1..];
    }
  }
}
