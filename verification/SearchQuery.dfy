/** The search-query grammar: the web client prints facets, the server tokenizes and sorts them. */
module SearchQuery {
  import opened Basics
  import opened Text

  // ---------------------------------------------------------- the tokenizer

  datatype QueryToken = QueryToken(text: string, quoted: bool)

  datatype Scanner = Scanner(out: seq<QueryToken>, current: string, started: bool, quoted: bool, inQuotes: bool)

  function Clean(out: seq<QueryToken>): Scanner {
    Scanner(out, "", false, false, false)
  }

  /** A character that is not the first half of an escaped quote. */
  function ScanOne(st: Scanner, c: char): Scanner {
    if c == '"' then st.(inQuotes := !st.inQuotes, started := true, quoted := true)
    else if IsSpace(c) && !st.inQuotes then
      if st.started then Clean(st.out + [QueryToken(st.current, st.quoted)]) else st
    else st.(current := st.current + [c], started := true)
  }

  predicate EscapedQuote(st: Scanner, s: string) {
    |s| >= 2 && s[0] == '"' && s[1] == '"' && st.inQuotes
  }

  function Scan(st: Scanner, s: string): Scanner
    decreases |s|
  {
    if s == [] then st
    else if EscapedQuote(st, s) then Scan(st.(current := st.current + ['"']), s[2..])
    else Scan(ScanOne(st, s[0]), s[1..])
  }

  function Finish(st: Scanner): seq<QueryToken> {
    if st.started then st.out + [QueryToken(st.current, st.quoted)] else st.out
  }

  function TokensOf(raw: string): seq<QueryToken> {
    Finish(Scan(Clean([]), raw))
  }

  /** `split_query_tokens`. */
  method SplitQueryTokens(raw: string) returns (out: seq<QueryToken>)
    ensures out == TokensOf(raw)
  {
    out := [];
    var current := "";
    var started, quoted, inQuotes := false, false, false;
    var i := 0;
    while i < |raw|
      invariant i <= |raw|
      invariant !started ==> current == "" && !quoted && !inQuotes
      invariant Scan(Scanner(out, current, started, quoted, inQuotes), raw[i..]) == Scan(Clean([]), raw)
    {
      var c := raw[i];
      assert raw[i..][0] == c && raw[i..][1..] == raw[i + 1..];
      i := i + 1;
      if c == '"' && inQuotes && i < |raw| && raw[i] == '"' {
        assert raw[i - 1..][2..] == raw[i + 1..];
        i := i + 1;
        current := current + ['"'];
      } else if c == '"' {
        inQuotes := !inQuotes;
        started := true;
        quoted := true;
      } else if IsSpace(c) && !inQuotes {
        if started {
          out := out + [QueryToken(current, quoted)];
          current := "";
          started := false;
          quoted := false;
        }
      } else {
        current := current + [c];
        started := true;
      }
    }
    if started {
      out := out + [QueryToken(current, quoted)];
    }
  }

  // ------------------------------------------------------- building the query

  function SplitColon(s: string): Option<(string, string)> {
    if s == [] then None
    else if s[0] == ':' then Some(([], s[1..]))
    else match SplitColon(s[1..]) case None => None case Some((a, b)) => Some(([s[0]] + a, b))
  }

  datatype Kind = Author | Series | Tag | Genre | Free | Dropped

  /** Which list a token goes to, and with which value. */
  function Classify(t: QueryToken): (Kind, string) {
    match SplitColon(t.text)
    case None => (Free, t.text)
    case Some((prefix, value)) =>
      var lower := Lower(prefix);
      if lower !in ["author", "series", "tag", "genre"] then (Free, t.text)
      else if value == "" then (Dropped, "")
      else (if lower == "author" then Author else if lower == "series" then Series
            else if lower == "tag" then Tag else Genre, value)
  }

  /** The tokens sorted into one list, each with its value. */
  function Sorted(tokens: seq<QueryToken>, kind: Kind): seq<QueryToken> {
    if tokens == [] then []
    else
      var t := tokens[|tokens| - 1];
      var (k, value) := Classify(t);
      Sorted(tokens[..|tokens| - 1], kind) + if k == kind then [QueryToken(value, t.quoted)] else []
  }

  function Values(tokens: seq<QueryToken>, kind: Kind): seq<string> {
    if tokens == [] then []
    else
      var (k, value) := Classify(tokens[|tokens| - 1]);
      Values(tokens[..|tokens| - 1], kind) + if k == kind then [value] else []
  }

  /** `replace('"', "\"\"")`. */
  function Doubled(s: string): string {
    if s == [] then [] else (if s[0] == '"' then ['"', '"'] else [s[0]]) + Doubled(s[1..])
  }

  function Phrases(tokens: seq<QueryToken>): seq<string> {
    if tokens == [] then []
    else
      var t := tokens[|tokens| - 1];
      Phrases(tokens[..|tokens| - 1]) + if t.text == "" then [] else ["\"" + Doubled(t.text) + "\""]
  }

  /** `sanitize_query_tokens`: FTS phrases, the last one a prefix match unless it was quoted. */
  function Sanitized(tokens: seq<QueryToken>): Option<string> {
    var parts := Phrases(tokens);
    if parts == [] then None
    else
      var starred := if tokens != [] && tokens[|tokens| - 1].quoted then parts[|parts| - 1] else parts[|parts| - 1] + "*";
      Some(Join(parts[..|parts| - 1] + [starred]))
  }

  datatype SearchQuery = SearchQuery(ftsMatch: Option<string>, tagFacets: seq<string>, genreFacets: seq<string>)

  /** One FTS column filter. */
  function ColumnFilter(columns: string, phrases: string): string {
    "{" + columns + "} : (" + phrases + ")"
  }

  function Clause(columns: string, s: Option<string>): seq<string> {
    match s case None => [] case Some(phrases) => [ColumnFilter(columns, phrases)]
  }

  function AndJoined(clauses: seq<string>): string {
    if clauses == [] then ""
    else if |clauses| == 1 then clauses[0]
    else AndJoined(clauses[..|clauses| - 1]) + " AND " + clauses[|clauses| - 1]
  }

  function QueryOf(tokens: seq<QueryToken>): SearchQuery {
    var clauses := Clause("authors", Sanitized(Sorted(tokens, Author)))
      + Clause("series", Sanitized(Sorted(tokens, Series)))
      + Clause("title authors series", Sanitized(Sorted(tokens, Free)));
    SearchQuery(if clauses == [] then None else Some(AndJoined(clauses)), Values(tokens, Tag), Values(tokens, Genre))
  }

  /** `quote_tokens`, as `sanitize_query_tokens` calls it. */
  method SanitizeQueryTokens(tokens: seq<QueryToken>) returns (fts: Option<string>)
    ensures fts == Sanitized(tokens)
  {
    var prefixLast := !(tokens != [] && tokens[|tokens| - 1].quoted);
    var parts: seq<string> := [];
    for i := 0 to |tokens|
      invariant parts == Phrases(tokens[..i])
    {
      assert tokens[..i + 1][..i] == tokens[..i];
      var escaped := Doubled(tokens[i].text);
      DoubledEmpty(tokens[i].text);
      if escaped == "" {
        continue;
      }
      parts := parts + ["\"" + escaped + "\""];
    }
    assert tokens[..|tokens|] == tokens;
    if parts == [] {
      return None;
    }
    if prefixLast {
      parts := parts[|parts| - 1 := parts[|parts| - 1] + "*"];
      assert parts == Phrases(tokens)[..|parts| - 1] + [Phrases(tokens)[|parts| - 1] + "*"];
    } else {
      assert parts == parts[..|parts| - 1] + [parts[|parts| - 1]];
    }
    return Some(Join(parts));
  }

  lemma DoubledEmpty(s: string)
    ensures Doubled(s) == "" <==> s == ""
  {}

  /** The token loop of `build_search_query`. */
  method SortTokens(tokens: seq<QueryToken>)
    returns (authors: seq<QueryToken>, series: seq<QueryToken>, free: seq<QueryToken>, tags: seq<string>, genres: seq<string>)
    ensures authors == Sorted(tokens, Author) && series == Sorted(tokens, Series) && free == Sorted(tokens, Free)
    ensures tags == Values(tokens, Tag) && genres == Values(tokens, Genre)
  {
    authors, series, free, tags, genres := [], [], [], [], [];
    for i := 0 to |tokens|
      invariant authors == Sorted(tokens[..i], Author) && series == Sorted(tokens[..i], Series)
      invariant free == Sorted(tokens[..i], Free)
      invariant tags == Values(tokens[..i], Tag) && genres == Values(tokens[..i], Genre)
    {
      assert tokens[..i + 1][..i] == tokens[..i];
      var token := tokens[i];
      match SplitColon(token.text) {
        case Some((prefix, value)) =>
          var lower := Lower(prefix);
          if value == "" && lower in ["author", "series", "tag", "genre"] {
            continue;
          }
          if lower == "author" {
            authors := authors + [QueryToken(value, token.quoted)];
            continue;
          }
          if lower == "series" {
            series := series + [QueryToken(value, token.quoted)];
            continue;
          }
          if lower == "tag" {
            tags := tags + [value];
            continue;
          }
          if lower == "genre" {
            genres := genres + [value];
            continue;
          }
        case None =>
      }
      assert Classify(token) == (Free, token.text);
      free := free + [token];
    }
    assert tokens[..|tokens|] == tokens;
  }

  /** One `clauses.push`, if there is anything to search these columns for. */
  method AddClause(clauses: seq<string>, columns: string, fts: Option<string>) returns (more: seq<string>)
    ensures more == clauses + Clause(columns, fts)
  {
    more := clauses;
    if fts.Some? {
      more := more + [ColumnFilter(columns, fts.value)];
    }
  }

  /** `build_search_query`. */
  method BuildSearchQuery(raw: string) returns (query: SearchQuery)
    ensures query == QueryOf(TokensOf(raw))
  {
    var tokens := SplitQueryTokens(raw);
    var authors, series, free, tags, genres := SortTokens(tokens);
    var a := SanitizeQueryTokens(authors);
    var clauses := AddClause([], "authors", a);
    assert clauses == Clause("authors", a);
    var s := SanitizeQueryTokens(series);
    clauses := AddClause(clauses, "series", s);
    var f := SanitizeQueryTokens(free);
    clauses := AddClause(clauses, "title authors series", f);
    query := SearchQuery(if clauses == [] then None else Some(AndJoined(clauses)), tags, genres);
  }
}
