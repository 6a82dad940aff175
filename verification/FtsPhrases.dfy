/** What the search expression says, read by the grammar of FTS5 phrases, prefixes and column filters. */
module FtsPhrases {
  import opened Basics
  import opened Text
  import opened SearchQuery

  // ------------------------------------------------------------ the reader

  /** After an opening quote: the phrase, its quotes undoubled, and what follows its closing quote. */
  function ReadQuoted(s: string): (r: Option<(string, string)>)
    ensures r.Some? ==> |r.value.1| < |s|
    decreases |s|
  {
    if s == [] then None
    else if s[0] == '"' && |s| >= 2 && s[1] == '"' then
      match ReadQuoted(s[2..]) case None => None case Some((text, rest)) => Some((['"'] + text, rest))
    else if s[0] == '"' then Some(("", s[1..]))
    else match ReadQuoted(s[1..]) case None => None case Some((text, rest)) => Some(([s[0]] + text, rest))
  }

  /** A list of phrases read, and what follows it. */
  datatype List = List(texts: seq<string>, star: bool, rest: string)

  predicate Ends(s: string) {
    s == [] || s[0] == ')'
  }

  /**
   * Quoted phrases apart by spaces, up to a closing parenthesis or the end, and whether a star makes the last
   * a prefix; nothing else is allowed.
   */
  function ReadPhrases(s: string): (r: Option<List>)
    ensures r.Some? ==> |r.value.rest| <= |s|
    decreases |s|
  {
    if Ends(s) then Some(List([], false, s))
    else if s[0] == ' ' then ReadPhrases(s[1..])
    else if s[0] != '"' then None
    else
      match ReadQuoted(s[1..])
      case None => None
      case Some((text, rest)) =>
        if rest != [] && rest[0] == '*' then if Ends(rest[1..]) then Some(List([text], true, rest[1..])) else None
        else match ReadPhrases(rest) case None => None case Some(list) => Some(list.(texts := [text] + list.texts))
  }

  // ----------------------------------------------------- the expression, from the front

  function Phrase(t: string): string {
    "\"" + Doubled(t) + "\""
  }

  function Texts(tokens: seq<QueryToken>): seq<string> {
    if tokens == [] then []
    else
      var t := tokens[|tokens| - 1];
      Texts(tokens[..|tokens| - 1]) + if t.text == "" then [] else [t.text]
  }

  function Quoted(texts: seq<string>): (parts: seq<string>)
    ensures |parts| == |texts|
  {
    if texts == [] then [] else [Phrase(texts[0])] + Quoted(texts[1..])
  }

  function Star(star: bool): string {
    if star then "*" else ""
  }

  function Expression(texts: seq<string>, star: bool): string
    requires texts != []
  {
    if |texts| == 1 then Phrase(texts[0]) + Star(star)
    else Phrase(texts[0]) + " " + Expression(texts[1..], star)
  }

  lemma {:induction false} QuotedSnoc(texts: seq<string>, t: string)
    ensures Quoted(texts + [t]) == Quoted(texts) + [Phrase(t)]
  {
    if texts == [] {
      assert [] + [t] == [t] && [t][1..] == [];
    } else {
      QuotedSnoc(texts[1..], t);
      assert (texts + [t])[1..] == texts[1..] + [t];
    }
  }

  lemma {:induction false} PhrasesAreQuoted(tokens: seq<QueryToken>)
    ensures Phrases(tokens) == Quoted(Texts(tokens))
  {
    if tokens != [] {
      var init, t := tokens[..|tokens| - 1], tokens[|tokens| - 1];
      PhrasesAreQuoted(init);
      QuotedSnoc(Texts(init), t.text);
      assert t.text == "" ==> Texts(tokens) == Texts(init);
    }
  }

  lemma {:induction false} JoinCons(w: string, ws: seq<string>)
    requires ws != []
    ensures Join([w] + ws) == w + " " + Join(ws)
    decreases |ws|
  {
    var all, init, last := [w] + ws, ws[..|ws| - 1], ws[|ws| - 1];
    assert all[..|all| - 1] == [w] + init;
    if init == [] {
      assert all[..|all| - 1] == [w];
    } else {
      JoinCons(w, init);
      Regroup(w, Join(init), last);
    }
  }

  lemma Regroup(a: string, b: string, c: string)
    ensures (a + " " + b) + " " + c == a + " " + (b + " " + c)
  {
    assert (a + " " + b) + " " + c == a + (" " + b + " " + c);
  }

  function Starred(parts: seq<string>, star: bool): seq<string>
    requires parts != []
  {
    parts[..|parts| - 1] + [parts[|parts| - 1] + Star(star)]
  }

  lemma {:induction false} JoinedIsExpression(texts: seq<string>, star: bool)
    requires texts != []
    ensures Join(Starred(Quoted(texts), star)) == Expression(texts, star)
  {
    var parts := Quoted(texts);
    if |texts| == 1 {
      assert Starred(parts, star) == [Phrase(texts[0]) + Star(star)];
    } else {
      var rest := Quoted(texts[1..]);
      JoinedIsExpression(texts[1..], star);
      assert Starred(parts, star) == [Phrase(texts[0])] + Starred(rest, star);
      JoinCons(Phrase(texts[0]), Starred(rest, star));
    }
  }

  // -------------------------------------------------------- and read again

  lemma {:induction false} ReadsDoubled(t: string, rest: string)
    requires rest == [] || rest[0] != '"'
    ensures ReadQuoted(Doubled(t) + ("\"" + rest)) == Some((t, rest))
  {
    var s := Doubled(t) + ("\"" + rest);
    if t == [] {
      assert s == "\"" + rest && s[1..] == rest;
    } else {
      ReadsDoubled(t[1..], rest);
      assert s[if t[0] == '"' then 2 else 1..] == Doubled(t[1..]) + ("\"" + rest);
      assert [t[0]] + t[1..] == t;
    }
  }

  lemma ReadsPhrase(t: string, rest: string)
    requires rest == [] || rest[0] != '"'
    ensures var s := Phrase(t) + rest;
            s != [] && s[0] == '"' && ReadQuoted(s[1..]) == Some((t, rest))
  {
    ReadsDoubled(t, rest);
    assert (Phrase(t) + rest)[1..] == Doubled(t) + ("\"" + rest);
  }

  lemma ReadsLast(t: string, star: bool, tail: string)
    requires Ends(tail)
    ensures ReadPhrases(Phrase(t) + Star(star) + tail) == Some(List([t], star, tail))
  {
    var rest := Star(star) + tail;
    ReadsPhrase(t, rest);
    assert Phrase(t) + Star(star) + tail == Phrase(t) + rest;
    if star {
      assert rest[1..] == tail;
    } else {
      assert rest == tail && [t] + [] == [t];
    }
  }

  lemma ReadsOneMore(t: string, more: string, list: List)
    requires ReadPhrases(more) == Some(list)
    ensures ReadPhrases(Phrase(t) + " " + more) == Some(list.(texts := [t] + list.texts))
  {
    var rest := " " + more;
    ReadsPhrase(t, rest);
    assert Phrase(t) + " " + more == Phrase(t) + rest;
    assert rest[0] == ' ' && rest[1..] == more;
  }

  lemma {:induction false} ReadsExpression(texts: seq<string>, star: bool, tail: string)
    requires texts != [] && Ends(tail)
    ensures ReadPhrases(Expression(texts, star) + tail) == Some(List(texts, star, tail))
  {
    assert texts == [texts[0]] + texts[1..];
    if |texts| == 1 {
      ReadsLast(texts[0], star, tail);
      assert texts == [texts[0]];
    } else {
      var more := Expression(texts[1..], star) + tail;
      ReadsExpression(texts[1..], star, tail);
      ReadsOneMore(texts[0], more, List(texts[1..], star, tail));
      assert Expression(texts, star) + tail == Phrase(texts[0]) + " " + more;
    }
  }

  /** One list of tokens as the expression says it: its texts, the last a prefix unless the last token was quoted. */
  lemma SanitizedIsExpression(tokens: seq<QueryToken>)
    ensures match Sanitized(tokens)
            case None => Texts(tokens) == []
            case Some(fts) => Texts(tokens) != [] && fts == Expression(Texts(tokens), !tokens[|tokens| - 1].quoted)
  {
    PhrasesAreQuoted(tokens);
    if Texts(tokens) != [] {
      var star := !tokens[|tokens| - 1].quoted;
      JoinedIsExpression(Texts(tokens), star);
      var parts := Phrases(tokens);
      assert star || parts[|parts| - 1] + "" == parts[|parts| - 1];
    }
  }

  /**
   * Whatever is typed, a list's expression is well formed and says exactly the tokens that are not empty, in
   * order, the last a prefix unless the last token typed was quoted; there is none only for no such token.
   */
  lemma SanitizedReadsBack(tokens: seq<QueryToken>)
    ensures match Sanitized(tokens)
            case None => Texts(tokens) == []
            case Some(fts) =>
              Texts(tokens) != [] && ReadPhrases(fts) == Some(List(Texts(tokens), !tokens[|tokens| - 1].quoted, ""))
  {
    SanitizedIsExpression(tokens);
    if Texts(tokens) != [] {
      var e := Expression(Texts(tokens), !tokens[|tokens| - 1].quoted);
      ReadsExpression(Texts(tokens), !tokens[|tokens| - 1].quoted, "");
      assert e + "" == e;
    }
  }

  // ------------------------------------------------------- column filters

  /** Columns, the phrases asked of them, and whether the last is a prefix. */
  datatype Filter = Filter(columns: string, texts: seq<string>, star: bool)

  function ReadColumns(s: string): (r: Option<(string, string)>)
    ensures r.Some? ==> |r.value.1| < |s|
  {
    if s == [] then None
    else if s[0] == '}' then Some(("", s[1..]))
    else match ReadColumns(s[1..]) case None => None case Some((columns, rest)) => Some(([s[0]] + columns, rest))
  }

  /** `{columns} : (phrases)`, and what follows. */
  function ReadFilter(s: string): (r: Option<(Filter, string)>)
    ensures r.Some? ==> |r.value.1| < |s|
  {
    if s == [] || s[0] != '{' then None
    else
      match ReadColumns(s[1..])
      case None => None
      case Some((columns, after)) =>
        if !(" : (" <= after) then None
        else
          match ReadPhrases(after[4..])
          case None => None
          case Some(list) =>
            if list.rest == [] then None else Some((Filter(columns, list.texts, list.star), list.rest[1..]))
  }

  /** Filters joined by `AND`. */
  function ReadFilters(s: string): Option<seq<Filter>>
    decreases |s|
  {
    match ReadFilter(s)
    case None => None
    case Some((f, rest)) =>
      if rest == [] then Some([f])
      else if !(" AND " <= rest) then None
      else match ReadFilters(rest[5..]) case None => None case Some(more) => Some([f] + more)
  }

  function FilterText(f: Filter): string
    requires f.texts != []
  {
    ColumnFilter(f.columns, Expression(f.texts, f.star))
  }

  predicate Sayable(fs: seq<Filter>) {
    forall i :: 0 <= i < |fs| ==> fs[i].texts != [] && '}' !in fs[i].columns
  }

  function FilterTexts(fs: seq<Filter>): seq<string>
    requires Sayable(fs)
  {
    if fs == [] then [] else [FilterText(fs[0])] + FilterTexts(fs[1..])
  }

  lemma {:induction false} ReadsColumns(columns: string, rest: string)
    requires '}' !in columns
    ensures ReadColumns(columns + ("}" + rest)) == Some((columns, rest))
  {
    var s := columns + ("}" + rest);
    if columns == [] {
      assert s == "}" + rest && s[1..] == rest;
    } else {
      ReadsColumns(columns[1..], rest);
      assert s[1..] == columns[1..] + ("}" + rest);
      assert [columns[0]] + columns[1..] == columns;
    }
  }

  lemma ReadsFilter(f: Filter, rest: string)
    requires f.texts != [] && '}' !in f.columns
    ensures ReadFilter(FilterText(f) + rest) == Some((f, rest))
  {
    var e := Expression(f.texts, f.star);
    var inner := e + (")" + rest);
    var after := " : (" + inner;
    var s := FilterText(f) + rest;
    assert s == "{" + (f.columns + ("}" + after));
    assert s[1..] == f.columns + ("}" + after);
    ReadsColumns(f.columns, after);
    assert after[4..] == inner && " : (" <= after;
    ReadsExpression(f.texts, f.star, ")" + rest);
    assert (")" + rest)[1..] == rest;
  }

  lemma {:induction false} AndCons(c: string, cs: seq<string>)
    requires cs != []
    ensures AndJoined([c] + cs) == c + " AND " + AndJoined(cs)
    decreases |cs|
  {
    var all, init, last := [c] + cs, cs[..|cs| - 1], cs[|cs| - 1];
    assert all[..|all| - 1] == [c] + init;
    if init == [] {
      assert all[..|all| - 1] == [c];
    } else {
      AndCons(c, init);
      RegroupAnd(c, AndJoined(init), last);
    }
  }

  lemma RegroupAnd(a: string, b: string, c: string)
    ensures (a + " AND " + b) + " AND " + c == a + " AND " + (b + " AND " + c)
  {
    assert (a + " AND " + b) + " AND " + c == a + (" AND " + b + " AND " + c);
  }

  lemma ReadsLastFilter(f: Filter)
    requires f.texts != [] && '}' !in f.columns
    ensures ReadFilters(FilterText(f)) == Some([f])
  {
    ReadsFilter(f, "");
    assert FilterText(f) + "" == FilterText(f);
  }

  lemma ReadsFilterThen(f: Filter, more: string, fs: seq<Filter>)
    requires f.texts != [] && '}' !in f.columns && ReadFilters(more) == Some(fs)
    ensures ReadFilters(FilterText(f) + " AND " + more) == Some([f] + fs)
  {
    var rest := " AND " + more;
    ReadsFilter(f, rest);
    assert FilterText(f) + " AND " + more == FilterText(f) + rest;
    assert rest[5..] == more && " AND " <= rest;
  }

  lemma {:induction false} ReadsFilters(fs: seq<Filter>)
    requires Sayable(fs) && fs != []
    ensures ReadFilters(AndJoined(FilterTexts(fs))) == Some(fs)
  {
    var rest := fs[1..];
    if rest == [] {
      assert fs == [fs[0]];
      assert FilterTexts(fs) == [FilterText(fs[0])];
      ReadsLastFilter(fs[0]);
    } else {
      ReadsFilters(rest);
      AndCons(FilterText(fs[0]), FilterTexts(rest));
      ReadsFilterThen(fs[0], AndJoined(FilterTexts(rest)), rest);
      assert fs == [fs[0]] + rest;
    }
  }

  // ---------------------------------------------------------- the whole query

  /** What a list of tokens asks of some columns, if anything. */
  function FilterOf(columns: string, tokens: seq<QueryToken>): (fs: seq<Filter>)
    ensures '}' !in columns ==> Sayable(fs)
  {
    if Texts(tokens) == [] || tokens == [] then []
    else [Filter(columns, Texts(tokens), !tokens[|tokens| - 1].quoted)]
  }

  lemma ColumnsPlain()
    ensures '}' !in "authors" && '}' !in "series" && '}' !in "title authors series"
  {}

  lemma SayableBoth(a: seq<Filter>, b: seq<Filter>)
    requires Sayable(a) && Sayable(b)
    ensures Sayable(a + b)
  {}

  function FiltersOf(tokens: seq<QueryToken>): (fs: seq<Filter>)
    ensures Sayable(fs)
  {
    ColumnsPlain();
    var a, s := FilterOf("authors", Sorted(tokens, Author)), FilterOf("series", Sorted(tokens, Series));
    var f := FilterOf("title authors series", Sorted(tokens, Free));
    SayableBoth(a, s);
    SayableBoth(a + s, f);
    a + s + f
  }

  lemma ClauseIsFilter(columns: string, tokens: seq<QueryToken>)
    requires '}' !in columns
    ensures Clause(columns, Sanitized(tokens)) == FilterTexts(FilterOf(columns, tokens))
  {
    SanitizedIsExpression(tokens);
    if Texts(tokens) != [] {
      assert FilterOf(columns, tokens)[1..] == [];
    }
  }

  lemma {:induction false} FilterTextsConcat(a: seq<Filter>, b: seq<Filter>)
    requires Sayable(a) && Sayable(b)
    ensures Sayable(a + b) && FilterTexts(a + b) == FilterTexts(a) + FilterTexts(b)
  {
    if a == [] {
      assert a + b == b;
    } else {
      FilterTextsConcat(a[1..], b);
      assert (a + b)[1..] == a[1..] + b;
    }
  }

  /**
   * The whole expression of any query is well formed, and asks of each group of columns exactly the non-empty
   * tokens sorted to it, in order; there is none only when no list has such a token.
   */
  lemma QueryReadsBack(tokens: seq<QueryToken>)
    ensures match QueryOf(tokens).ftsMatch
            case None => FiltersOf(tokens) == []
            case Some(fts) => ReadFilters(fts) == Some(FiltersOf(tokens))
  {
    var a, s, f := Sorted(tokens, Author), Sorted(tokens, Series), Sorted(tokens, Free);
    ColumnsPlain();
    ClauseIsFilter("authors", a);
    ClauseIsFilter("series", s);
    ClauseIsFilter("title authors series", f);
    FilterTextsConcat(FilterOf("authors", a), FilterOf("series", s));
    FilterTextsConcat(FilterOf("authors", a) + FilterOf("series", s), FilterOf("title authors series", f));
    if FiltersOf(tokens) != [] {
      ReadsFilters(FiltersOf(tokens));
    }
  }
}
