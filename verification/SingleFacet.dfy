/** When the client takes a query for one facet (`singleFacetValue`), and when it should not. */
module SingleFacet {
  import opened Basics
  import opened Text
  import opened SearchQuery
  import opened Facets
  import FtsPhrases

  // --------------------------------------------------------------- two words

  lemma {:induction false} CountAround(a: string, c: char, b: string)
    requires JsSpace(c)
    ensures JsWordCount(a + ([c] + b)) == JsWordCount(a) + JsWordCount(b)
  {
    if a == [] {
      assert a + ([c] + b) == [c] + b && ([c] + b)[1..] == b;
    } else {
      CountAround(a[1..], c, b);
      assert (a + ([c] + b))[1..] == a[1..] + ([c] + b);
    }
  }

  lemma {:induction false} CountedWord(s: string, i: nat)
    requires i < |s| && !JsSpace(s[i])
    ensures JsWordCount(s) >= 1
  {
    if i > 0 {
      CountedWord(s[1..], i - 1);
    } else if |s| > 1 && !JsSpace(s[1]) {
      CountedWord(s[1..], 0);
    }
  }

  predicate HasWord(s: string) {
    exists i :: 0 <= i < |s| && !JsSpace(s[i])
  }

  /** A value that does not open with a quote and holds two words is no single facet's. */
  lemma TwoWordsNoValue(query: string, prefix: string, a: string, c: char, b: string)
    requires SplitColon(Trim(query)) == Some((prefix, a + ([c] + b))) && JsSpace(c) && (a == [] || a[0] != '"')
    requires HasWord(a) && HasWord(b)
    ensures SingleFacetValue(query) == None
  {
    var i :| 0 <= i < |a| && !JsSpace(a[i]);
    var j :| 0 <= j < |b| && !JsSpace(b[j]);
    CountedWord(a, i);
    CountedWord(b, j);
    CountAround(a, c, b);
  }

  // ---------------------------------------------------------- several facets

  function Last(s: string): char
    requires s != []
  {
    s[|s| - 1]
  }

  /** Not blank and not to be trimmed. */
  predicate Tight(s: string) {
    s != [] && !JsSpace(s[0]) && !JsSpace(s[|s| - 1])
  }

  lemma TightStays(s: string)
    requires Tight(s)
    ensures Trim(s) == s
  {
    Untrimmed(s);
  }

  function Queries(fs: seq<Facet>): (qs: seq<string>)
    ensures |qs| == |fs| && forall i :: 0 <= i < |fs| ==> qs[i] == FacetQuery(fs[i])
  {
    if fs == [] then [] else Queries(fs[..|fs| - 1]) + [FacetQuery(fs[|fs| - 1])]
  }

  lemma {:induction false} PrintedIsJoined(fs: seq<Facet>)
    ensures Printed(fs) == Join(Queries(fs))
  {
    if |fs| > 1 {
      PrintedIsJoined(fs[..|fs| - 1]);
      assert Queries(fs)[..|fs| - 1] == Queries(fs[..|fs| - 1]);
    }
  }

  lemma {:induction false} JoinEnds(ws: seq<string>)
    requires ws != [] && forall i :: 0 <= i < |ws| ==> ws[i] != ""
    ensures Join(ws) != [] && Join(ws)[0] == ws[0][0] && Last(Join(ws)) == Last(ws[|ws| - 1])
  {
    if |ws| > 1 {
      JoinEnds(ws[..|ws| - 1]);
    }
  }

  /** Of several texts joined, the first and the rest. */
  lemma JoinApart(ws: seq<string>) returns (more: string)
    requires |ws| >= 2 && forall i :: 0 <= i < |ws| ==> Tight(ws[i])
    ensures Join(ws) == ws[0] + ([' '] + more) && Tight(more) && Tight(Join(ws))
    ensures Tight(ws[|ws| - 1]) && Last(more) == Last(ws[|ws| - 1])
  {
    more := Join(ws[1..]);
    FtsPhrases.JoinCons(ws[0], ws[1..]);
    assert [ws[0]] + ws[1..] == ws;
    assert ws[0] + " " + more == ws[0] + ([' '] + more);
    JoinEnds(ws);
    JoinEnds(ws[1..]);
  }

  /** What follows the colon of a printed facet. */
  function Value(f: Facet): string {
    var name := Trim(f.name);
    if NeedsQuotes(name) then "\"" + Doubled(name) + "\"" else name
  }

  lemma QueryIs(f: Facet)
    ensures FacetQuery(f) == Prefix(f) + ":" + Value(f)
  {
    var name := Trim(f.name);
    assert Prefix(f) + ":" + "\"" + Doubled(name) + "\"" == Prefix(f) + ":" + ("\"" + Doubled(name) + "\"");
  }

  lemma TrimStartStops(s: string)
    ensures var t := TrimStart(s); t == [] || !JsSpace(t[0])
  {}

  lemma {:induction false} TrimEndKeepsStart(s: string)
    requires s != [] && !JsSpace(s[0])
    ensures TrimEnd(s) != [] && TrimEnd(s)[0] == s[0]
  {
    if JsSpace(s[|s| - 1]) {
      TrimEndKeepsStart(s[..|s| - 1]);
    }
  }

  lemma TrimIsTight(s: string)
    ensures Trim(s) == "" || Tight(Trim(s))
  {
    TrimStops(TrimStart(s));
    TrimStartStops(s);
    if TrimStart(s) != "" { TrimEndKeepsStart(TrimStart(s)); }
  }

  /** A plain value is one word without quotes; a quoted one has quotes at its ends. */
  lemma ValueShape(f: Facet)
    requires Trim(f.name) != ""
    ensures Tight(Value(f)) && |Value(f)| >= 1
    ensures if NeedsQuotes(Trim(f.name)) then |Value(f)| >= 2 && Value(f)[0] == '"' && Last(Value(f)) == '"'
            else Value(f)[0] != '"' && Last(Value(f)) != '"'
  {
    TrimIsTight(f.name);
  }

  lemma QueryShape(f: Facet)
    requires Trim(f.name) != ""
    ensures Tight(FacetQuery(f)) && (Last(FacetQuery(f)) == '"' <==> NeedsQuotes(Trim(f.name)))
  {
    QueryIs(f);
    ValueShape(f);
  }

  lemma SeveralStart(fs: seq<Facet>) returns (more: string)
    requires |fs| >= 2 && forall i :: 0 <= i < |fs| ==> Trim(fs[i].name) != ""
    ensures SplitColon(Trim(Printed(fs))) == Some((Prefix(fs[0]), Value(fs[0]) + ([' '] + more)))
    ensures Tight(more) && (Last(more) == '"' <==> NeedsQuotes(Trim(fs[|fs| - 1].name)))
  {
    var qs := Queries(fs);
    forall i | 0 <= i < |fs| ensures Tight(qs[i]) {
      QueryShape(fs[i]);
    }
    PrintedIsJoined(fs);
    more := JoinApart(qs);
    TightStays(Join(qs));
    QueryShape(fs[|fs| - 1]);
    ColonSplits(fs[0], [' '] + more);
  }

  lemma ColonSplits(f: Facet, tail: string)
    ensures SplitColon(FacetQuery(f) + tail) == Some((Prefix(f), Value(f) + tail))
  {
    QueryIs(f);
    Associate(Prefix(f), ":", Value(f), tail);
    SplitColonAt(Prefix(f), Value(f) + tail);
  }

  lemma Associate(a: string, b: string, c: string, d: string)
    ensures (a + b + c) + d == a + b + (c + d)
  {}

  lemma UnDoubledSome(s: string)
    ensures UnDoubled(s) == "" <==> s == ""
  {}

  /** What a query with a facet prefix has for a value when what follows the colon opens with a quote. */
  lemma OpensQuoted(query: string, prefix: string, rest: string)
    requires SplitColon(Trim(query)) == Some((prefix, rest)) && Lower(prefix) in ["author", "series", "tag", "genre"]
    requires |rest| > 2 && rest[0] == '"'
    ensures SingleFacetValue(query) == if Last(rest) == '"' then Some(UnDoubled(rest[1..|rest| - 1])) else None
  {
    UnDoubledSome(rest[1..|rest| - 1]);
  }

  lemma FirstPlain(query: string, prefix: string, value: string, more: string)
    requires SplitColon(Trim(query)) == Some((prefix, value + ([' '] + more)))
    requires Tight(value) && Tight(more) && value[0] != '"'
    ensures SingleFacetValue(query) == None
  {
    assert HasWord(value) && HasWord(more);
    TwoWordsNoValue(query, prefix, value, ' ', more);
  }

  lemma FirstQuoted(query: string, prefix: string, value: string, more: string)
    requires SplitColon(Trim(query)) == Some((prefix, value + ([' '] + more)))
    requires Lower(prefix) in ["author", "series", "tag", "genre"]
    requires Tight(value) && Tight(more) && value[0] == '"'
    ensures SingleFacetValue(query) == None <==> Last(more) != '"'
  {
    var rest := value + ([' '] + more);
    assert rest[0] == value[0] && Last(rest) == Last(more) && |rest| > 2;
    OpensQuoted(query, prefix, rest);
  }

  /**
   * Several printed facets have no single value, unless the first and the last are both printed in quotes: then the
   * opening quote of the one and the closing quote of the other are taken for those of one name.
   */
  lemma SeveralFacetsValue(fs: seq<Facet>)
    requires |fs| >= 2 && forall i :: 0 <= i < |fs| ==> Trim(fs[i].name) != ""
    ensures SingleFacetValue(Printed(fs)) == None
            <==> !(NeedsQuotes(Trim(fs[0].name)) && NeedsQuotes(Trim(fs[|fs| - 1].name)))
  {
    var more := SeveralStart(fs);
    ValueShape(fs[0]);
    LowerPrefixes();
    if NeedsQuotes(Trim(fs[0].name)) {
      FirstQuoted(Printed(fs), Prefix(fs[0]), Value(fs[0]), more);
    } else {
      FirstPlain(Printed(fs), Prefix(fs[0]), Value(fs[0]), more);
    }
  }

  // ------------------------------------------------------------ a concrete case

  lemma {:induction false} NothingDoubled(s: string)
    requires forall i :: 0 <= i < |s| - 1 ==> s[i] != '"' || s[i + 1] != '"'
    ensures UnDoubled(s) == s
  {
    if s != [] {
      NothingDoubled(s[1..]);
      assert s == [s[0]] + s[1..];
    }
  }

  lemma {:induction false} DoubledPlain(s: string)
    requires QuoteFree(s)
    ensures Doubled(s) == s
  {
    if s != [] {
      DoubledPlain(s[1..]);
      assert s == [s[0]] + s[1..];
    }
  }

  /** A name printed in quotes with nothing to trim or escape. */
  predicate Simple(name: string) {
    Tight(name) && QuoteFree(name) && NeedsQuotes(name)
  }

  lemma SimpleQuery(f: Facet)
    requires Simple(f.name)
    ensures Trim(f.name) == f.name && Value(f) == "\"" + f.name + "\""
  {
    TightStays(f.name);
    DoubledPlain(f.name);
  }

  /** The name two facets printed in quotes are taken for. */
  function Mixed(f: Facet, g: Facet): string {
    f.name + ("\" " + (Prefix(g) + (":\"" + g.name)))
  }

  lemma MixedPlain(f: Facet, g: Facet)
    requires Simple(f.name) && Simple(g.name)
    ensures UnDoubled(Mixed(f, g)) == Mixed(f, g)
  {
    var n := |f.name|;
    assert Mixed(f, g)[n] == '"' && Mixed(f, g)[n + 1] == ' ';
    assert Mixed(f, g)[n + 2 + |Prefix(g)|..] == ":\"" + g.name;
    NothingDoubled(Mixed(f, g));
  }

  lemma TwoTaken(f: Facet, g: Facet)
    requires Simple(f.name) && Simple(g.name)
    ensures SingleFacetValue(Printed([f, g])) == Some(Mixed(f, g))
  {
    SimpleQuery(f);
    SimpleQuery(g);
    var tail := " " + FacetQuery(g);
    TwoPrinted(f, g);
    ColonSplits(f, tail);
    LowerPrefixes();
    RestOfTwo(f, g);
    OpensQuoted(Printed([f, g]), Prefix(f), Value(f) + tail);
    MixedPlain(f, g);
  }

  lemma TwoPrinted(f: Facet, g: Facet)
    requires Trim(f.name) != "" && Trim(g.name) != ""
    ensures Printed([f, g]) == FacetQuery(f) + (" " + FacetQuery(g)) && Trim(Printed([f, g])) == Printed([f, g])
  {
    assert [f, g][..1] == [f];
    QueryShape(f);
    QueryShape(g);
    TightPair(FacetQuery(f), FacetQuery(g));
    var a, b := FacetQuery(f), FacetQuery(g);
    assert Printed([f, g]) == a + " " + b;
    assert a + " " + b == a + (" " + b);
    TightStays(a + (" " + b));
  }

  lemma TightPair(a: string, b: string)
    requires Tight(a) && Tight(b)
    ensures Tight(a + (" " + b))
  {}

  /** Two quoted texts, and what lies between the outer quotes. */
  lemma Between(name: string, middle: string, other: string)
    ensures var rest := ("\"" + name + "\"") + (" " + (middle + ("\"" + other + "\"")));
            && |rest| > 2 && rest[0] == '"' && Last(rest) == '"'
            && rest[1..|rest| - 1] == name + ("\" " + (middle + ("\"" + other)))
  {
    var rest := ("\"" + name + "\"") + (" " + (middle + ("\"" + other + "\"")));
    assert rest == "\"" + (name + ("\" " + (middle + ("\"" + other)))) + "\"";
  }

  lemma RestOfTwo(f: Facet, g: Facet)
    requires Simple(f.name) && Simple(g.name)
    ensures var rest := Value(f) + (" " + FacetQuery(g));
            |rest| > 2 && rest[0] == '"' && Last(rest) == '"' && rest[1..|rest| - 1] == Mixed(f, g)
  {
    SimpleQuery(f);
    SimpleQuery(g);
    QueryIs(g);
    var middle := Prefix(g) + ":";
    Between(f.name, middle, g.name);
    MixedIs(f, g);
  }

  lemma MixedIs(f: Facet, g: Facet)
    ensures Mixed(f, g) == f.name + ("\" " + ((Prefix(g) + ":") + ("\"" + g.name)))
  {
    assert ":\"" + g.name == ":" + ("\"" + g.name);
    assert Prefix(g) + (":" + ("\"" + g.name)) == (Prefix(g) + ":") + ("\"" + g.name);
  }

  /** The failing case: the query for the tag "a b" and the genre "c d" passes for one facet, under a name that is neither. */
  lemma TwoFacetsValue()
    ensures SingleFacetValue(Printed([Facet(true, "a b"), Facet(false, "c d")]))
            == Some("a b" + ("\" " + ("genre" + (":\"" + "c d"))))
  {
    SimplePair('a', 'b');
    SimplePair('c', 'd');
    TwoTaken(Facet(true, "a b"), Facet(false, "c d"));
  }

  lemma SimplePair(x: char, y: char)
    requires !JsSpace(x) && !JsSpace(y) && x != '"' && y != '"'
    ensures Simple([x, ' ', y])
  {
    assert JsSpace([x, ' ', y][1]);
  }
}
