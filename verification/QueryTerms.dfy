/** What a typed query asks for, term by term: which columns or facet each term goes to, and as what text. */
module QueryTerms {
  import opened Basics
  import opened Text
  import opened SearchQuery
  import opened Facets
  import opened FtsPhrases

  /** A term as typed: what stands before its colon, if there is one, and a value, plain or between quotes. */
  datatype Term = Term(prefix: Option<string>, value: string, quoted: bool)

  function Head(t: Term): string {
    match t.prefix case None => "" case Some(p) => p + ":"
  }

  /** The term as it stands in the search box; a quote inside quotes is typed twice. */
  function Typed(t: Term): string {
    if t.quoted then Head(t) + "\"" + Doubled(t.value) + "\"" else Head(t) + t.value
  }

  /** Outside quotes there is neither space nor quote, and the first colon ends the prefix. */
  predicate Typable(t: Term) {
    && NoSpace(Head(t)) && QuoteFree(Head(t))
    && (match t.prefix case None => ':' !in t.value case Some(p) => ':' !in p)
    && (!t.quoted ==> NoSpace(t.value) && QuoteFree(t.value) && Typed(t) != "")
  }

  predicate AllTypable(terms: seq<Term>) {
    forall i :: 0 <= i < |terms| ==> Typable(terms[i])
  }

  /** Terms typed one after the other. */
  function Line(terms: seq<Term>): string {
    if terms == [] then ""
    else if |terms| == 1 then Typed(terms[0])
    else Line(terms[..|terms| - 1]) + " " + Typed(terms[|terms| - 1])
  }

  // ------------------------------------------------------ what it should ask

  /** Where a term is looked for. */
  datatype Place = Columns(names: string) | TagNames | GenreNames

  /** The prefixes that name a place, in any case; anything else is looked for everywhere. */
  function PlaceOf(t: Term): Place {
    match t.prefix
    case None => Columns("title authors series")
    case Some(p) =>
      if SameButCase(p, "author") then Columns("authors")
      else if SameButCase(p, "series") then Columns("series")
      else if SameButCase(p, "tag") then TagNames
      else if SameButCase(p, "genre") then GenreNames
      else Columns("title authors series")
  }

  predicate Everywhere(t: Term) {
    PlaceOf(t) == Columns("title authors series")
  }

  /** The text looked for: the value, or the whole term when its prefix names no place. */
  function TextFor(t: Term): string {
    if Everywhere(t) then Head(t) + t.value else t.value
  }

  /** Whether the term is looked for there; one that names a place and no value is not looked for at all. */
  predicate GoesTo(t: Term, place: Place) {
    PlaceOf(t) == place && (Everywhere(t) || t.value != "")
  }

  /** The terms looked for in one place, in order. */
  function Those(terms: seq<Term>, place: Place): seq<Term> {
    if terms == [] then []
    else
      var last := terms[|terms| - 1];
      Those(terms[..|terms| - 1], place) + if GoesTo(last, place) then [last] else []
  }

  function TextsFor(terms: seq<Term>): seq<string> {
    if terms == [] then []
    else
      var last := terms[|terms| - 1];
      TextsFor(terms[..|terms| - 1]) + if TextFor(last) != "" then [TextFor(last)] else []
  }

  /** What is asked of some columns: the texts there, the last as a prefix unless it was typed in quotes. */
  function FilterFor(columns: string, terms: seq<Term>): seq<Filter> {
    var there := Those(terms, Columns(columns));
    if there == [] || TextsFor(there) == [] then [] else [Filter(columns, TextsFor(there), !there[|there| - 1].quoted)]
  }

  function FiltersFor(terms: seq<Term>): seq<Filter> {
    FilterFor("authors", terms) + FilterFor("series", terms) + FilterFor("title authors series", terms)
  }

  // ------------------------------------------------------------- as scanned

  function TokenOf(t: Term): QueryToken {
    QueryToken(Head(t) + t.value, t.quoted)
  }

  function TokensFor(terms: seq<Term>): seq<QueryToken> {
    if terms == [] then [] else TokensFor(terms[..|terms| - 1]) + [TokenOf(terms[|terms| - 1])]
  }

  lemma ScanTerm(out: seq<QueryToken>, t: Term)
    requires Typable(t)
    ensures ScansTo(out, Typed(t), [TokenOf(t)])
  {
    if t.quoted {
      ScanQuotedFacet(out, Head(t), t.value);
    } else {
      var w := Typed(t);
      ScanPlainFacet(out, w);
      SplitWord(w);
      ToksSnoc([], w);
      assert [] + [w] == [w] && [] + [TokenOf(t)] == [TokenOf(t)];
    }
  }

  lemma {:induction false} ScanLine(terms: seq<Term>)
    requires AllTypable(terms)
    ensures TokensOf(Line(terms)) == TokensFor(terms)
    ensures terms != [] ==> ScanOne(Scan(Clean([]), Line(terms)), ' ') == Clean(TokensFor(terms))
  {
    if |terms| == 1 {
      ScanTerm([], terms[0]);
      assert TokensFor(terms[..0]) == [];
    } else if |terms| > 1 {
      var init, t := terms[..|terms| - 1], terms[|terms| - 1];
      ScanLine(init);
      ScanLast(Clean([]), Line(init), ' ');
      ScanConcat(Clean([]), Line(init) + " ", Typed(t));
      ScanTerm(TokensFor(init), t);
    }
  }

  /** A line whose last term's closing quote is not typed yet. */
  function Unclosed(terms: seq<Term>, last: Term): string {
    (if terms == [] then "" else Line(terms) + " ") + (Head(last) + ("\"" + Doubled(last.value)))
  }

  /** It is read as if it were closed. */
  lemma ScanUnclosedLine(terms: seq<Term>, last: Term)
    requires AllTypable(terms) && Typable(last) && last.quoted
    ensures TokensOf(Unclosed(terms, last)) == TokensFor(terms + [last])
  {
    var tail := Head(last) + ("\"" + Doubled(last.value));
    var out := TokensFor(terms);
    ScanOpened(out, Head(last), Doubled(last.value));
    ScanUnclosed(Scanner(out, Head(last), true, true, true), last.value);
    assert (terms + [last])[..|terms|] == terms;
    if terms == [] {
      assert "" + tail == tail;
    } else {
      ScanLine(terms);
      ScanLast(Clean([]), Line(terms), ' ');
      ScanConcat(Clean([]), Line(terms) + " ", tail);
    }
  }

  // ------------------------------------------------------------- as sorted

  lemma {:induction false} NoColon(s: string)
    requires ':' !in s
    ensures SplitColon(s) == None
  {
    if s != [] {
      NoColon(s[1..]);
    }
  }

  lemma PrefixNames(p: string)
    ensures (Lower(p) == "author" <==> SameButCase(p, "author")) && (Lower(p) == "series" <==> SameButCase(p, "series"))
    ensures (Lower(p) == "tag" <==> SameButCase(p, "tag")) && (Lower(p) == "genre" <==> SameButCase(p, "genre"))
  {
    PrefixName(p, "author");
    PrefixName(p, "series");
    PrefixName(p, "tag");
    PrefixName(p, "genre");
  }

  lemma PrefixName(p: string, name: string)
    requires forall i :: 0 <= i < |name| ==> !('A' <= name[i] <= 'Z')
    ensures Lower(p) == name <==> SameButCase(p, name)
  {
    LowerStays(name);
    LowerIsCase(p, name);
  }

  /** The list a token is sorted to when its term goes to that place. */
  function KindAt(place: Place): Kind {
    match place
    case TagNames => Tag
    case GenreNames => Genre
    case Columns(names) => if names == "authors" then Author else if names == "series" then Series else Free
  }

  predicate IsPlace(place: Place) {
    place.Columns? ==> place.names in ["authors", "series", "title authors series"]
  }

  lemma PlainClassified(t: Term)
    requires Typable(t) && t.prefix.None?
    ensures Classify(TokenOf(t)) == (Free, TextFor(t))
  {
    NoColon(t.value);
    assert Head(t) + t.value == t.value;
  }

  lemma PrefixedClassified(t: Term)
    requires Typable(t) && t.prefix.Some?
    ensures Classify(TokenOf(t))
            == if Everywhere(t) then (Free, TextFor(t)) else if t.value == "" then (Dropped, "")
               else (KindAt(PlaceOf(t)), TextFor(t))
  {
    SplitColonAt(t.prefix.value, t.value);
    PrefixNames(t.prefix.value);
  }

  lemma TermSorted(t: Term, place: Place)
    requires Typable(t) && IsPlace(place)
    ensures Classify(TokenOf(t)).0 == KindAt(place) <==> GoesTo(t, place)
    ensures GoesTo(t, place) ==> Classify(TokenOf(t)).1 == TextFor(t)
  {
    if t.prefix.None? {
      PlainClassified(t);
    } else {
      PrefixedClassified(t);
    }
  }

  /** The tokens of the terms that go to a place, each with its text there. */
  function TextTokens(terms: seq<Term>): seq<QueryToken> {
    if terms == [] then []
    else
      var last := terms[|terms| - 1];
      TextTokens(terms[..|terms| - 1]) + [QueryToken(TextFor(last), last.quoted)]
  }

  lemma ValuesSnoc(a: seq<QueryToken>, t: QueryToken, kind: Kind)
    ensures Values(a + [t], kind) == Values(a, kind) + if Classify(t).0 == kind then [Classify(t).1] else []
  {
    assert (a + [t])[..|a|] == a;
  }

  lemma ThoseSnoc(terms: seq<Term>, t: Term)
    ensures TextTokens(terms + [t]) == TextTokens(terms) + [QueryToken(TextFor(t), t.quoted)]
    ensures TextsFor(terms + [t]) == TextsFor(terms) + if TextFor(t) != "" then [TextFor(t)] else []
  {
    assert (terms + [t])[..|terms|] == terms;
  }

  lemma {:induction false} LineSorted(terms: seq<Term>, place: Place)
    requires AllTypable(terms) && IsPlace(place)
    ensures Sorted(TokensFor(terms), KindAt(place)) == TextTokens(Those(terms, place))
    ensures !place.Columns? ==> Values(TokensFor(terms), KindAt(place)) == TextsFor(Those(terms, place))
  {
    if terms != [] {
      var init, t := terms[..|terms| - 1], terms[|terms| - 1];
      LineSorted(init, place);
      TermSorted(t, place);
      SortedSnoc(TokensFor(init), TokenOf(t), KindAt(place));
      ValuesSnoc(TokensFor(init), TokenOf(t), KindAt(place));
      ThoseSnoc(Those(init, place), t);
      assert Those(terms, place) == if GoesTo(t, place) then Those(init, place) + [t] else Those(init, place);
    }
  }

  lemma {:induction false} TextsAsked(terms: seq<Term>)
    ensures Texts(TextTokens(terms)) == TextsFor(terms) && |TextTokens(terms)| == |terms|
    ensures terms != [] ==> TextTokens(terms)[|terms| - 1].quoted == terms[|terms| - 1].quoted
  {
    if terms != [] {
      var init := terms[..|terms| - 1];
      TextsAsked(init);
      assert TextTokens(terms)[..|terms| - 1] == TextTokens(init);
    }
  }

  lemma FilterAsked(columns: string, terms: seq<Term>)
    requires AllTypable(terms) && IsPlace(Columns(columns))
    ensures FilterOf(columns, Sorted(TokensFor(terms), KindAt(Columns(columns)))) == FilterFor(columns, terms)
  {
    LineSorted(terms, Columns(columns));
    TextsAsked(Those(terms, Columns(columns)));
  }

  lemma FiltersAsked(terms: seq<Term>)
    requires AllTypable(terms)
    ensures FiltersOf(TokensFor(terms)) == FiltersFor(terms)
  {
    FilterAsked("authors", terms);
    FilterAsked("series", terms);
    FilterAsked("title authors series", terms);
  }

  lemma FacetsAsked(terms: seq<Term>)
    requires AllTypable(terms)
    ensures QueryOf(TokensFor(terms)).tagFacets == TextsFor(Those(terms, TagNames))
    ensures QueryOf(TokensFor(terms)).genreFacets == TextsFor(Those(terms, GenreNames))
  {
    LineSorted(terms, TagNames);
    LineSorted(terms, GenreNames);
  }

  // -------------------------------------------------------------- the law

  /** The query's expression asks just this, and it has just these facets. */
  predicate AsksOnly(raw: string, filters: seq<Filter>, tags: seq<string>, genres: seq<string>) {
    var q := QueryOf(TokensOf(raw));
    && q.tagFacets == tags && q.genreFacets == genres
    && match q.ftsMatch case None => filters == [] case Some(fts) => ReadFilters(fts) == Some(filters)
  }

  /**
   * What a line of terms asks, read off its search expression: of each group of columns exactly the terms whose prefix
   * names them, or, of all three, the whole of those whose prefix names no place, in order, the last of each as a prefix
   * unless it was typed in quotes; and the values under `tag:` and `genre:` as facets. Prefixes count in any ASCII case.
   */
  lemma LineAsks(terms: seq<Term>)
    requires AllTypable(terms)
    ensures AsksOnly(Line(terms), FiltersFor(terms), TextsFor(Those(terms, TagNames)), TextsFor(Those(terms, GenreNames)))
  {
    ScanLine(terms);
    QueryReadsBack(TokensFor(terms));
    FiltersAsked(terms);
    FacetsAsked(terms);
  }

  /** A quote left open at the end asks what it asks once closed. */
  lemma UnclosedAsks(terms: seq<Term>, last: Term)
    requires AllTypable(terms) && Typable(last) && last.quoted
    ensures var all := terms + [last];
            AsksOnly(Unclosed(terms, last), FiltersFor(all), TextsFor(Those(all, TagNames)), TextsFor(Those(all, GenreNames)))
  {
    ScanUnclosedLine(terms, last);
    ScanLine(terms + [last]);
    LineAsks(terms + [last]);
  }

  lemma ThoseOne(t: Term, place: Place)
    ensures Those([t], place) == if GoesTo(t, place) then [t] else []
    ensures TextsFor([t]) == if TextFor(t) != "" then [TextFor(t)] else []
    ensures TextsFor([]) == []
  {
    assert [t][..0] == [];
  }

  function FiltersIn(t: Term): seq<Filter> {
    match PlaceOf(t) case Columns(names) => [Filter(names, [TextFor(t)], !t.quoted)] case _ => []
  }

  lemma FiltersOfOne(t: Term)
    requires t.value != ""
    ensures FiltersFor([t]) == FiltersIn(t)
  {
    OneFilter(t, "authors");
    OneFilter(t, "series");
    OneFilter(t, "title authors series");
  }

  lemma FacetsOfOne(t: Term)
    requires t.value != ""
    ensures TextsFor(Those([t], TagNames)) == if PlaceOf(t) == TagNames then [t.value] else []
    ensures TextsFor(Those([t], GenreNames)) == if PlaceOf(t) == GenreNames then [t.value] else []
  {
    ThoseOne(t, TagNames);
    ThoseOne(t, GenreNames);
  }

  lemma OneTermIn(t: Term)
    requires Typable(t) && t.value != ""
    ensures AsksOnly(Typed(t), FiltersIn(t), if PlaceOf(t) == TagNames then [t.value] else [],
                     if PlaceOf(t) == GenreNames then [t.value] else [])
  {
    LineAsks([t]);
    FiltersOfOne(t);
    FacetsOfOne(t);
  }

  lemma OneFilter(t: Term, columns: string)
    requires t.value != ""
    ensures FilterFor(columns, [t]) == if PlaceOf(t) == Columns(columns) then [Filter(columns, [TextFor(t)], !t.quoted)] else []
  {
    ThoseOne(t, Columns(columns));
  }

  /** The prefix names none of the four places. */
  predicate NamesNone(p: string) {
    !SameButCase(p, "author") && !SameButCase(p, "series") && !SameButCase(p, "tag") && !SameButCase(p, "genre")
  }

  lemma PlaceIs(t: Term)
    ensures match t.prefix
            case None => PlaceOf(t) == Columns("title authors series")
            case Some(p) =>
              && (SameButCase(p, "author") ==> PlaceOf(t) == Columns("authors"))
              && (SameButCase(p, "series") ==> PlaceOf(t) == Columns("series"))
              && (SameButCase(p, "tag") ==> PlaceOf(t) == TagNames)
              && (SameButCase(p, "genre") ==> PlaceOf(t) == GenreNames)
              && (NamesNone(p) ==> PlaceOf(t) == Columns("title authors series"))
  {
    if t.prefix.Some? { PrefixNames(t.prefix.value); }
  }

  /** A value under a prefix, plain or in quotes: `author:` asks the authors, `series:` the series, the others are facets. */
  lemma PrefixedAsks(p: string, value: string, quoted: bool)
    requires Typable(Term(Some(p), value, quoted)) && value != ""
    ensures var raw := Typed(Term(Some(p), value, quoted));
            && (SameButCase(p, "author") ==> AsksOnly(raw, [Filter("authors", [value], !quoted)], [], []))
            && (SameButCase(p, "series") ==> AsksOnly(raw, [Filter("series", [value], !quoted)], [], []))
            && (SameButCase(p, "tag") ==> AsksOnly(raw, [], [value], []))
            && (SameButCase(p, "genre") ==> AsksOnly(raw, [], [], [value]))
            && (NamesNone(p) ==> AsksOnly(raw, [Filter("title authors series", [p + ":" + value], !quoted)], [], []))
  {
    var t := Term(Some(p), value, quoted);
    PlaceIs(t);
    OneTermIn(t);
  }

  /** A value without a prefix is looked for everywhere. */
  lemma PlainAsks(value: string, quoted: bool)
    requires Typable(Term(None, value, quoted)) && value != ""
    ensures AsksOnly(Typed(Term(None, value, quoted)), [Filter("title authors series", [value], !quoted)], [], [])
  {
    var t := Term(None, value, quoted);
    OneTermIn(t);
    assert "" + value == value;
  }
}
