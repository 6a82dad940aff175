/** The `location` object a highlight carries (`location_json`, `span_range`). */
module SpanLocation {
  import opened Basics

  const U32_LIMIT: nat := 0x1_0000_0000

  type u32 = n: nat | n < U32_LIMIT

  /** A highlight's KoboSpan range; char offsets are UTF-16 code units. */
  datatype SpanRange = SpanRange(chapter: string, startSpan: string, startChar: u32, endSpan: string, endChar: u32)

  /** The JSON shapes the codec tells apart. */
  datatype Json = Null | Number(n: int) | String(s: string) | Object(fields: map<string, Json>) | Other

  /** `replace('.', "\\.")`. */
  function Escaped(id: string): string {
    if id == [] then []
    else (if id[0] == '.' then ['\\', '.'] else [id[0]]) + Escaped(id[1..])
  }

  /** `replace("\\.", ".")`: leftmost matches first, none overlapping. */
  function Unescaped(path: string): string {
    if path == [] then []
    else if |path| >= 2 && path[0] == '\\' && path[1] == '.' then ['.'] + Unescaped(path[2..])
    else [path[0]] + Unescaped(path[1..])
  }

  const PREFIX: string := "span#"

  function EscapedSpanPath(id: string): string {
    PREFIX + Escaped(id)
  }

  function UnescapedSpanPath(path: string): Option<string> {
    if PREFIX <= path then Some(Unescaped(path[|PREFIX|..])) else None
  }

  function LocationJson(location: Option<SpanRange>): Json {
    match location
    case None => Null
    case Some(r) =>
      Object(map["span" := Object(map[
        "chapterFilename" := String(r.chapter),
        "startPath" := String(EscapedSpanPath(r.startSpan)),
        "startChar" := Number(r.startChar),
        "endPath" := String(EscapedSpanPath(r.endSpan)),
        "endChar" := Number(r.endChar)])])
  }

  function Get(j: Json, key: string): Option<Json> {
    if j.Object? && key in j.fields then Some(j.fields[key]) else None
  }

  function GetStr(j: Json, key: string): Option<string> {
    match Get(j, key)
    case Some(String(s)) => Some(s)
    case _ => None
  }

  /** `u32::try_from(get(key)?.as_u64()?)`. */
  function GetU32(j: Json, key: string): Option<u32> {
    match Get(j, key)
    case Some(Number(n)) => if 0 <= n < U32_LIMIT then Some(n) else None
    case _ => None
  }

  function GetPath(j: Json, key: string): Option<string> {
    match GetStr(j, key)
    case Some(s) => UnescapedSpanPath(s)
    case None => None
  }

  function SpanRangeOf(location: Json): Option<SpanRange> {
    match Get(location, "span")
    case None => None
    case Some(span) =>
      match (GetStr(span, "chapterFilename"), GetPath(span, "startPath"), GetU32(span, "startChar"),
             GetPath(span, "endPath"), GetU32(span, "endChar"))
      case (Some(chapter), Some(startSpan), Some(startChar), Some(endSpan), Some(endChar)) =>
        Some(SpanRange(chapter, startSpan, startChar, endSpan, endChar))
      case _ => None
  }

  /** An escaped id never opens with a bare dot, so unescaping undoes escaping for every id. */
  lemma {:induction false} UnescapeEscape(id: string)
    ensures Unescaped(Escaped(id)) == id
    ensures Escaped(id) != [] ==> Escaped(id)[0] != '.'
  {
    if id != [] {
      UnescapeEscape(id[1..]);
      var tail := Escaped(id[1..]);
      if id[0] == '.' {
        assert Escaped(id)[2..] == tail;
      } else {
        assert Escaped(id)[1..] == tail;
      }
      assert id == [id[0]] + id[1..];
    }
  }

  lemma PathRoundTrip(id: string)
    ensures UnescapedSpanPath(EscapedSpanPath(id)) == Some(id)
  {
    UnescapeEscape(id);
    assert EscapedSpanPath(id)[|PREFIX|..] == Escaped(id);
  }

  /** Decoding an encoded location gives it back, whatever the ids hold. */
  lemma LocationRoundTrip(location: Option<SpanRange>)
    ensures SpanRangeOf(LocationJson(location)) == location
  {
    match location
    case None =>
    case Some(r) =>
      PathRoundTrip(r.startSpan);
      PathRoundTrip(r.endSpan);
      var span := Get(LocationJson(location), "span").value;
      assert GetStr(span, "chapterFilename") == Some(r.chapter);
      assert GetPath(span, "startPath") == Some(r.startSpan);
      assert GetPath(span, "endPath") == Some(r.endSpan);
  }

  lemma {:induction false} EscapedDot(a: string, b: string)
    requires '.' !in a
    ensures Escaped(a + ("." + b)) == a + ("\\." + Escaped(b))
  {
    var s := a + ("." + b);
    if a == [] {
      assert s == "." + b && s[1..] == b;
    } else {
      EscapedDot(a[1..], b);
      assert s[1..] == a[1..] + ("." + b);
      assert a == [a[0]] + a[1..];
    }
  }

  lemma {:induction false} EscapedPlain(a: string)
    requires '.' !in a
    ensures Escaped(a) == a
  {
    if a != [] {
      EscapedPlain(a[1..]);
      assert a == [a[0]] + a[1..];
    }
  }

  /** `kobo.<n>.<m>`, and its dots written `dot`. */
  function Dotted(dot: string, n: string, m: string): string {
    "kobo" + (dot + (n + (dot + m)))
  }

  /** A span id is written down as `span#` and the id, each dot behind a backslash. */
  lemma WrittenPath(n: string, m: string)
    requires '.' !in n && '.' !in m
    ensures EscapedSpanPath(Dotted(".", n, m)) == "span#" + Dotted("\\.", n, m)
  {
    EscapedDot("kobo", n + ("." + m));
    EscapedDot(n, m);
    EscapedPlain(m);
  }

  /** What is written down of a location between two KEPUB spans, key by key; nothing else is. */
  lemma WireForm(chapter: string, n: string, m: string, from: u32, n': string, m': string, to: u32)
    requires '.' !in n && '.' !in m && '.' !in n' && '.' !in m'
    ensures LocationJson(Some(SpanRange(chapter, Dotted(".", n, m), from, Dotted(".", n', m'), to)))
            == Object(map["span" := Object(map[
                 "chapterFilename" := String(chapter),
                 "startPath" := String("span#" + Dotted("\\.", n, m)), "startChar" := Number(from),
                 "endPath" := String("span#" + Dotted("\\.", n', m')), "endChar" := Number(to)])])
  {
    WrittenPath(n, m);
    WrittenPath(n', m');
  }
}
