/** The client's facet printer (`facetQuery`, `singleFacetValue`) against the server's tokenizer. */
module Facets {
  import opened Basics
  import opened Text
  import opened SearchQuery

  // ------------------------------------------------------------- the printer

  /** JavaScript's white space, as `trim` and `\s` use it: U+FEFF counts, U+0085 does not. */
  predicate JsSpace(c: char) {
    (IsSpace(c) && c as int != 0x85) || c as int == 0xFEFF
  }

  function TrimStart(s: string): string {
    if s != [] && JsSpace(s[0]) then TrimStart(s[1..]) else s
  }

  function TrimEnd(s: string): string {
    if s != [] && JsSpace(s[|s| - 1]) then TrimEnd(s[..|s| - 1]) else s
  }

  function Trim(s: string): string {
    TrimEnd(TrimStart(s))
  }

  predicate NeedsQuotes(s: string) {
    exists i :: 0 <= i < |s| && (JsSpace(s[i]) || s[i] == '"')
  }

  datatype Facet = Facet(isTag: bool, name: string)

  function Prefix(f: Facet): string {
    if f.isTag then "tag" else "genre"
  }

  /** `facetQuery`. */
  function FacetQuery(f: Facet): string {
    var trimmed := Trim(f.name);
    if NeedsQuotes(trimmed) then Prefix(f) + ":" + "\"" + Doubled(trimmed) + "\""
    else Prefix(f) + ":" + trimmed
  }

  /** Several facets in one search box. */
  function Printed(fs: seq<Facet>): string {
    if fs == [] then ""
    else if |fs| == 1 then FacetQuery(fs[0])
    else Printed(fs[..|fs| - 1]) + " " + FacetQuery(fs[|fs| - 1])
  }

  // ----------------------------------------------------- scanning, in pieces

  /** Scanning resumes where it stopped, unless the cut parts two quotes. */
  lemma {:induction false} ScanConcat(st: Scanner, a: string, b: string)
    requires a == [] || b == [] || a[|a| - 1] != '"' || b[0] != '"'
    ensures Scan(st, a + b) == Scan(Scan(st, a), b)
    decreases |a|
  {
    if a == [] {
      assert a + b == b;
    } else if EscapedQuote(st, a) {
      assert (a + b)[2..] == a[2..] + b;
      ScanConcat(st.(current := st.current + ['"']), a[2..], b);
    } else {
      assert (a + b)[1..] == a[1..] + b;
      assert !EscapedQuote(st, a + b);
      ScanConcat(ScanOne(st, a[0]), a[1..], b);
    }
  }

  lemma ScanLast(st: Scanner, s: string, c: char)
    requires c != '"'
    ensures Scan(st, s + [c]) == ScanOne(Scan(st, s), c)
  {
    ScanConcat(st, s, [c]);
    assert [c][1..] == [];
  }

  function Toks(ws: seq<string>): seq<QueryToken> {
    if ws == [] then [] else Toks(ws[..|ws| - 1]) + [QueryToken(ws[|ws| - 1], false)]
  }

  lemma ToksSnoc(ws: seq<string>, w: string)
    ensures Toks(ws + [w]) == Toks(ws) + [QueryToken(w, false)]
  {
    assert (ws + [w])[..|ws|] == ws;
  }

  predicate QuoteFree(s: string) {
    forall i :: 0 <= i < |s| ==> s[i] != '"'
  }

  /** Where scanning stands after a text without quotes: its words, the last one still open if it runs to the end. */
  function PlainState(out: seq<QueryToken>, t: string): Scanner {
    var ws := Split(t);
    if EndsInWord(t) then Scanner(out + Toks(ws[..|ws| - 1]), ws[|ws| - 1], true, false, false)
    else Clean(out + Toks(ws))
  }

  lemma {:induction false} ScanPlain(out: seq<QueryToken>, t: string)
    requires QuoteFree(t)
    ensures Scan(Clean(out), t) == PlainState(out, t)
    ensures Finish(PlainState(out, t)) == out + Toks(Split(t))
  {
    if t != [] {
      var init, c := t[..|t| - 1], t[|t| - 1];
      assert t == init + [c];
      ScanPlain(out, init);
      ScanLast(Clean(out), init, c);
      SplitSnoc(init, c);
      PlainStep(out, init, c);
    }
  }

  lemma PlainFinish(out: seq<QueryToken>, t: string)
    requires EndsInWord(t) ==> Split(t) != []
    ensures Finish(PlainState(out, t)) == out + Toks(Split(t))
  {
    var ws := Split(t);
    if EndsInWord(t) {
      assert ws == ws[..|ws| - 1] + [ws[|ws| - 1]];
      ToksSnoc(ws[..|ws| - 1], ws[|ws| - 1]);
      assert out + (Toks(ws[..|ws| - 1]) + [QueryToken(ws[|ws| - 1], false)])
          == (out + Toks(ws[..|ws| - 1])) + [QueryToken(ws[|ws| - 1], false)];
    }
  }

  lemma PlainStep(out: seq<QueryToken>, t: string, c: char)
    requires c != '"'
    ensures ScanOne(PlainState(out, t), c) == PlainState(out, t + [c])
    ensures Finish(PlainState(out, t + [c])) == out + Toks(Split(t + [c]))
  {
    SplitSnoc(t, c);
    PlainFinish(out, t);
    PlainFinish(out, t + [c]);
  }

  /** Inside quotes, an escaped text and its closing quote add exactly that text. */
  lemma {:induction false} ScanQuoted(st: Scanner, t: string)
    requires st.inQuotes && st.started && st.quoted
    ensures Scan(st, Doubled(t) + "\"") == st.(current := st.current + t, inQuotes := false)
    decreases |t|
  {
    var s := Doubled(t) + "\"";
    if t == [] {
      assert s == "\"" && s[1..] == [];
      assert st.current + t == st.current;
    } else {
      var more := st.(current := st.current + [t[0]]);
      ScanQuoted(more, t[1..]);
      assert s[if t[0] == '"' then 2 else 1..] == Doubled(t[1..]) + "\"";
      assert (st.current + [t[0]]) + t[1..] == st.current + t;
    }
  }

  /** Inside quotes, an escaped text not closed yet adds exactly that text too. */
  lemma {:induction false} ScanUnclosed(st: Scanner, t: string)
    requires st.inQuotes && st.started
    ensures Scan(st, Doubled(t)) == st.(current := st.current + t)
    decreases |t|
  {
    var s := Doubled(t);
    if t == [] {
      assert st.current + t == st.current;
    } else {
      ScanUnclosed(st.(current := st.current + [t[0]]), t[1..]);
      assert s[if t[0] == '"' then 2 else 1..] == Doubled(t[1..]);
      assert (st.current + [t[0]]) + t[1..] == st.current + t;
    }
  }

  // ------------------------------------------------------------- one facet

  /** The tokens a printed facet is read as. */
  function FacetTokens(f: Facet): seq<QueryToken> {
    var name := Trim(f.name);
    if NeedsQuotes(name) then [QueryToken(Prefix(f) + ":" + name, true)] else Toks(Split(Prefix(f) + ":" + name))
  }

  /** Scanning this facet after finished tokens adds its own tokens, whether the text ends or a space follows. */
  ghost predicate ScansTo(out: seq<QueryToken>, text: string, tokens: seq<QueryToken>) {
    var st := Scan(Clean(out), text);
    Finish(st) == out + tokens && ScanOne(st, ' ') == Clean(out + tokens)
  }

  /** A head, then an opening quote: the scanner stands inside the quotes of one token. */
  lemma ScanOpened(out: seq<QueryToken>, head: string, body: string)
    requires NoSpace(head) && QuoteFree(head)
    ensures Scan(Clean(out), head + ("\"" + body)) == Scan(Scanner(out, head, true, true, true), body)
  {
    var st := Scanner(out, head, head != [], false, false);
    assert Scan(Clean(out), head) == st by {
      ScanPlain(out, head);
      if head != [] { SplitWord(head); }
      assert Split(head)[..0] == [] && out + [] == out;
    }
    ScanConcat(Clean(out), head, "\"" + body);
    assert ("\"" + body)[1..] == body;
  }

  lemma ScanQuotedFacet(out: seq<QueryToken>, head: string, name: string)
    requires NoSpace(head) && QuoteFree(head)
    ensures ScansTo(out, head + "\"" + Doubled(name) + "\"", [QueryToken(head + name, true)])
  {
    var body := Doubled(name) + "\"";
    assert head + "\"" + Doubled(name) + "\"" == head + ("\"" + body);
    ScanOpened(out, head, body);
    ScanQuoted(Scanner(out, head, true, true, true), name);
  }

  lemma ScanPlainFacet(out: seq<QueryToken>, t: string)
    requires QuoteFree(t)
    ensures ScansTo(out, t, Toks(Split(t)))
  {
    ScanPlain(out, t);
  }

  lemma ScanFacet(out: seq<QueryToken>, f: Facet)
    ensures ScansTo(out, FacetQuery(f), FacetTokens(f))
  {
    var name, head := Trim(f.name), Prefix(f) + ":";
    if NeedsQuotes(name) {
      ScanQuotedFacet(out, head, name);
      assert FacetQuery(f) == head + "\"" + Doubled(name) + "\"";
    } else {
      ScanPlainFacet(out, head + name);
    }
  }

  function AllTokens(fs: seq<Facet>): seq<QueryToken> {
    if fs == [] then [] else AllTokens(fs[..|fs| - 1]) + FacetTokens(fs[|fs| - 1])
  }

  lemma {:induction false} ScanPrinted(fs: seq<Facet>)
    ensures TokensOf(Printed(fs)) == AllTokens(fs)
    ensures fs != [] ==> ScanOne(Scan(Clean([]), Printed(fs)), ' ') == Clean(AllTokens(fs))
  {
    if |fs| == 1 {
      ScanFacet([], fs[0]);
      assert [] + FacetTokens(fs[0]) == FacetTokens(fs[0]);
      assert AllTokens(fs[..0]) == [];
    } else if |fs| > 1 {
      var init, f := fs[..|fs| - 1], fs[|fs| - 1];
      ScanPrinted(init);
      ScanLast(Clean([]), Printed(init), ' ');
      ScanConcat(Clean([]), Printed(init) + " ", FacetQuery(f));
      ScanFacet(AllTokens(init), f);
    }
  }

  // --------------------------------------------------------- sorting them out

  lemma {:induction false} SplitColonAt(a: string, b: string)
    requires forall i :: 0 <= i < |a| ==> a[i] != ':'
    ensures SplitColon(a + ":" + b) == Some((a, b))
  {
    var s := a + ":" + b;
    if a == [] {
      assert s[1..] == b;
    } else {
      SplitColonAt(a[1..], b);
      assert s[1..] == a[1..] + ":" + b;
      assert [a[0]] + a[1..] == a;
    }
  }

  lemma {:induction false} SplitColonJoins(s: string)
    requires SplitColon(s).Some?
    ensures s == SplitColon(s).value.0 + ":" + SplitColon(s).value.1
  {
    if s[0] != ':' {
      SplitColonJoins(s[1..]);
    }
  }

  lemma LowerPrefixes()
    ensures Lower("tag") == "tag" && Lower("genre") == "genre"
  {
    LowerStays("tag");
    LowerStays("genre");
  }

  lemma ClassifyFacet(f: Facet, name: string, quoted: bool)
    requires name != ""
    ensures Classify(QueryToken(Prefix(f) + ":" + name, quoted)) == (if f.isTag then Tag else Genre, name)
  {
    SplitColonAt(Prefix(f), name);
    LowerPrefixes();
  }

  lemma {:induction false} ValuesConcat(a: seq<QueryToken>, b: seq<QueryToken>, kind: Kind)
    ensures Values(a + b, kind) == Values(a, kind) + Values(b, kind)
    decreases |b|
  {
    if b == [] {
      assert a + b == a;
    } else {
      ValuesConcat(a, b[..|b| - 1], kind);
      assert (a + b)[..|a + b| - 1] == a + b[..|b| - 1];
    }
  }

  lemma SortedSnoc(a: seq<QueryToken>, t: QueryToken, kind: Kind)
    ensures Sorted(a + [t], kind)
            == Sorted(a, kind) + if Classify(t).0 == kind then [QueryToken(Classify(t).1, t.quoted)] else []
  {
    assert (a + [t])[..|a|] == a;
  }

  /** The trimmed names asked for, of one kind, in order. */
  function Names(fs: seq<Facet>, tags: bool): seq<string> {
    if fs == [] then []
    else
      var f := fs[|fs| - 1];
      Names(fs[..|fs| - 1], tags) + if f.isTag == tags then [Trim(f.name)] else []
  }

  predicate NoSpace(s: string) {
    forall i :: 0 <= i < |s| ==> !IsSpace(s[i])
  }

  /** A name both sides read alike: quoted when printed, or without any space the server splits at. */
  predicate ReadAlike(f: Facet) {
    NeedsQuotes(Trim(f.name)) || NoSpace(Trim(f.name))
  }

  lemma OneToken(f: Facet)
    requires ReadAlike(f)
    ensures FacetTokens(f) == [QueryToken(Prefix(f) + ":" + Trim(f.name), NeedsQuotes(Trim(f.name)))]
  {
    if !NeedsQuotes(Trim(f.name)) {
      var w := Prefix(f) + ":" + Trim(f.name);
      SplitWord(w);
      ToksSnoc([], w);
      assert [] + [w] == [w];
    }
  }

  lemma ValuesOne(t: QueryToken, kind: Kind)
    ensures Values([t], kind) == if Classify(t).0 == kind then [Classify(t).1] else []
  {
    assert [t][..0] == [];
  }

  lemma {:induction false} FacetsSorted(fs: seq<Facet>, kind: Kind)
    requires forall i :: 0 <= i < |fs| ==> ReadAlike(fs[i]) && Trim(fs[i].name) != ""
    ensures Values(AllTokens(fs), Tag) == Names(fs, true) && Values(AllTokens(fs), Genre) == Names(fs, false)
    ensures kind in {Author, Series, Free} ==> Sorted(AllTokens(fs), kind) == []
  {
    if fs != [] {
      var init, f := fs[..|fs| - 1], fs[|fs| - 1];
      FacetsSorted(init, kind);
      OneToken(f);
      ClassifyFacet(f, Trim(f.name), NeedsQuotes(Trim(f.name)));
      var t := FacetTokens(f)[0];
      ValuesConcat(AllTokens(init), [t], Tag);
      ValuesConcat(AllTokens(init), [t], Genre);
      SortedSnoc(AllTokens(init), t, kind);
      ValuesOne(t, Tag);
      ValuesOne(t, Genre);
    }
  }

  /** A value the server can answer for printed facets. */
  predicate Answerable(x: string) {
    NoSpace(x) || NeedsQuotes(x)
  }

  lemma WordAnswerable(w: string, kind: Kind)
    requires IsWord(w)
    ensures forall x :: x in Values([QueryToken(w, false)], kind) ==> NoSpace(x)
  {
    ValuesOne(QueryToken(w, false), kind);
    if SplitColon(w).Some? {
      SplitColonJoins(w);
      var (a, b) := SplitColon(w).value;
      forall i | 0 <= i < |b| ensures !IsSpace(b[i]) {
        assert w[|a| + 1 + i] == b[i];
      }
    }
  }

  lemma {:induction false} ToksAnswerable(ws: seq<string>, kind: Kind)
    requires forall i :: 0 <= i < |ws| ==> IsWord(ws[i])
    ensures forall x :: x in Values(Toks(ws), kind) ==> NoSpace(x)
  {
    if ws != [] {
      var init, w := ws[..|ws| - 1], ws[|ws| - 1];
      ToksAnswerable(init, kind);
      WordAnswerable(w, kind);
      ValuesConcat(Toks(init), [QueryToken(w, false)], kind);
    }
  }

  lemma FacetAnswerable(f: Facet, kind: Kind)
    requires kind in {Tag, Genre}
    ensures forall x :: x in Values(FacetTokens(f), kind) ==> Answerable(x)
  {
    var name := Trim(f.name);
    if NeedsQuotes(name) {
      ClassifyFacet(f, name, true);
      ValuesOne(FacetTokens(f)[0], kind);
    } else {
      SplitGivesWords(Prefix(f) + ":" + name);
      ToksAnswerable(Split(Prefix(f) + ":" + name), kind);
    }
  }

  lemma {:induction false} ValuesAnswerable(fs: seq<Facet>, kind: Kind)
    requires kind in {Tag, Genre}
    ensures forall x :: x in Values(AllTokens(fs), kind) ==> Answerable(x)
  {
    if fs != [] {
      ValuesAnswerable(fs[..|fs| - 1], kind);
      FacetAnswerable(fs[|fs| - 1], kind);
      ValuesConcat(AllTokens(fs[..|fs| - 1]), FacetTokens(fs[|fs| - 1]), kind);
    }
  }

  lemma {:induction false} NameAsked(fs: seq<Facet>, i: nat)
    requires i < |fs|
    ensures Trim(fs[i].name) in Names(fs, fs[i].isTag)
  {
    if i < |fs| - 1 {
      NameAsked(fs[..|fs| - 1], i);
    }
  }

  /**
   * Searching for printed facets asks for exactly their trimmed names, in order, and for no free text,
   * precisely when every name is read alike: only a name with a U+0085 that nothing else makes the
   * client quote is split by the server.
   */
  lemma PrintedFacetsReadBack(fs: seq<Facet>)
    requires forall i :: 0 <= i < |fs| ==> Trim(fs[i].name) != ""
    ensures QueryOf(TokensOf(Printed(fs))) == SearchQuery(None, Names(fs, true), Names(fs, false))
            <==> forall i :: 0 <= i < |fs| ==> ReadAlike(fs[i])
  {
    ScanPrinted(fs);
    var tokens := AllTokens(fs);
    if forall i :: 0 <= i < |fs| ==> ReadAlike(fs[i]) {
      FacetsSorted(fs, Author);
      FacetsSorted(fs, Series);
      FacetsSorted(fs, Free);
    } else {
      var i :| 0 <= i < |fs| && !ReadAlike(fs[i]);
      NameAsked(fs, i);
      var kind := if fs[i].isTag then Tag else Genre;
      ValuesAnswerable(fs, kind);
      assert Trim(fs[i].name) !in Values(tokens, kind);
    }
  }

  // ------------------------------------------------- reading one facet back

  /** `replaceAll('""', '"')`. */
  function UnDoubled(s: string): string
    decreases |s|
  {
    if s == [] then []
    else if |s| >= 2 && s[0] == '"' && s[1] == '"' then ['"'] + UnDoubled(s[2..])
    else [s[0]] + UnDoubled(s[1..])
  }

  /** The pieces left by `split(/\s+/).filter(Boolean)`, counted. */
  function JsWordCount(s: string): nat {
    if s == [] then 0
    else JsWordCount(s[1..]) + if !JsSpace(s[0]) && (|s| == 1 || JsSpace(s[1])) then 1 else 0
  }

  /** `singleFacetValue`. */
  function SingleFacetValue(query: string): Option<string> {
    match SplitColon(Trim(query))
    case None => None
    case Some((prefix, rest)) =>
      if Lower(prefix) !in ["author", "series", "tag", "genre"] then None
      else if rest != "" && rest[0] == '"' then
        if |rest| < 2 || rest[|rest| - 1] != '"' then None
        else
          var name := UnDoubled(rest[1..|rest| - 1]);
          if name == "" then None else Some(name)
      else if JsWordCount(rest) == 1 then Some(rest)
      else None
  }

  lemma {:induction false} UnDoubledDoubled(s: string)
    ensures UnDoubled(Doubled(s)) == s
  {
    if s != [] {
      UnDoubledDoubled(s[1..]);
      assert Doubled(s)[if s[0] == '"' then 2 else 1..] == Doubled(s[1..]);
    }
  }

  lemma {:induction false} TrimStops(s: string)
    ensures var t := TrimEnd(s); t == [] || !JsSpace(t[|t| - 1])
  {
    if s != [] && JsSpace(s[|s| - 1]) {
      TrimStops(s[..|s| - 1]);
    }
  }

  lemma {:induction false} OneRun(s: string)
    requires s != [] && forall i :: 0 <= i < |s| ==> !JsSpace(s[i])
    ensures JsWordCount(s) == 1
  {
    if |s| > 1 {
      OneRun(s[1..]);
    }
  }

  lemma FacetIsTrim(f: Facet)
    ensures Trim(FacetQuery(f)) == FacetQuery(f)
  {
    var q := FacetQuery(f);
    TrimStops(TrimStart(f.name));
    assert !JsSpace(q[|q| - 1]);
  }

  /** A value in quotes after the colon, and nothing after it. */
  lemma QuotedValue(prefix: string, name: string)
    requires ':' !in prefix
    ensures var rest := "\"" + Doubled(name) + "\"";
            && SplitColon(prefix + ":" + "\"" + Doubled(name) + "\"") == Some((prefix, rest))
            && UnDoubled(rest[1..|rest| - 1]) == name
  {
    var rest := "\"" + Doubled(name) + "\"";
    assert prefix + ":" + "\"" + Doubled(name) + "\"" == prefix + ":" + rest;
    SplitColonAt(prefix, rest);
    assert rest[1..|rest| - 1] == Doubled(name);
    UnDoubledDoubled(name);
  }

  lemma QuotedQueryReadBack(query: string, prefix: string, name: string)
    requires Trim(query) == query && query == prefix + ":" + "\"" + Doubled(name) + "\"" && name != ""
    requires ':' !in prefix && Lower(prefix) in ["author", "series", "tag", "genre"]
    ensures SingleFacetValue(query) == Some(name)
  {
    QuotedValue(prefix, name);
  }

  lemma QuotedFacetReadBack(f: Facet)
    requires NeedsQuotes(Trim(f.name))
    ensures SingleFacetValue(FacetQuery(f)) == Some(Trim(f.name))
  {
    FacetIsTrim(f);
    LowerPrefixes();
    assert Prefix(f) in ["author", "series", "tag", "genre"];
    QuotedQueryReadBack(FacetQuery(f), Prefix(f), Trim(f.name));
  }

  lemma PlainFacetReadBack(f: Facet)
    requires !NeedsQuotes(Trim(f.name))
    ensures SingleFacetValue(FacetQuery(f)) == if Trim(f.name) == "" then None else Some(Trim(f.name))
  {
    FacetIsTrim(f);
    LowerPrefixes();
    SplitColonAt(Prefix(f), Trim(f.name));
    if Trim(f.name) != "" { OneRun(Trim(f.name)); }
  }

  /** A single printed facet gives its trimmed name back, or nothing when the name is blank. */
  lemma SingleFacetReadBack(f: Facet)
    ensures SingleFacetValue(FacetQuery(f)) == if Trim(f.name) == "" then None else Some(Trim(f.name))
  {
    if NeedsQuotes(Trim(f.name)) {
      QuotedFacetReadBack(f);
    } else {
      PlainFacetReadBack(f);
    }
  }

  /** White space and line terminators in JavaScript, one by one. */
  lemma JsSpacesListed(c: char)
    ensures JsSpace(c) <==>
              c as int in [0x09, 0x0A, 0x0B, 0x0C, 0x0D, 0x20, 0xA0, 0x1680, 0x2000, 0x2001, 0x2002, 0x2003, 0x2004, 0x2005,
                           0x2006, 0x2007, 0x2008, 0x2009, 0x200A, 0x2028, 0x2029, 0x202F, 0x205F, 0x3000, 0xFEFF]
  {}

  lemma Untrimmed(s: string)
    requires s != [] && !JsSpace(s[0]) && !JsSpace(s[|s| - 1])
    ensures Trim(s) == s
  {}

  const NEXT_LINE: string := ['a', 0x85 as char, 'b']

  /** One name the server splits: a U+0085 inside it is white space to the server only. */
  lemma NextLineSplits()
    ensures QueryOf(TokensOf(Printed([Facet(true, NEXT_LINE)]))) != SearchQuery(None, [NEXT_LINE], [])
  {
    var f := Facet(true, NEXT_LINE);
    Untrimmed(NEXT_LINE);
    assert IsSpace(NEXT_LINE[1]) && !NeedsQuotes(NEXT_LINE);
    NamesOfOne(f);
    PrintedFacetsReadBack([f]);
    assert !ReadAlike([f][0]);
  }

  lemma NamesOfOne(f: Facet)
    ensures Names([f], f.isTag) == [Trim(f.name)] && Names([f], !f.isTag) == []
  {
    assert [f][..0] == [];
  }
}
