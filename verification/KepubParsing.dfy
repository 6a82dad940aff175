/** `parse_spans`: the koboSpans of one chapter, read from its stream of XML events. */
module KepubParsing {
  import opened Basics
  import opened KepubWords

  /** One XML event; `None` stands for a text that does not decode and a reference that does not resolve. */
  datatype Event =
    | Start(id: Option<string>)
    | End
    | Text(decoded: Option<string>)
    | CData(decoded: Option<string>)
    | GeneralRef(resolved: Option<char>)
    | Other  // an empty element, a comment, a declaration, …

  // ---------------------------------------------------------------- span ids

  function SplitOnce(s: string): Option<(string, string)> {
    if s == [] then None
    else if s[0] == '.' then Some(([], s[1..]))
    else match SplitOnce(s[1..])
      case None => None
      case Some((a, b)) => Some(([s[0]] + a, b))
  }

  predicate IsDigits(s: string) {
    s != [] && forall i :: 0 <= i < |s| ==> '0' <= s[i] <= '9'
  }

  predicate IsKoboSpanId(id: string) {
    match SplitOnce(id)
    case Some((kobo, rest)) =>
      kobo == "kobo" && (match SplitOnce(rest) case Some((n, m)) => IsDigits(n) && IsDigits(m) case None => false)
    case None => false
  }

  lemma {:induction false} SplitOnceAt(a: string, b: string)
    requires forall i :: 0 <= i < |a| ==> a[i] != '.'
    ensures SplitOnce(a + "." + b) == Some((a, b))
  {
    var s := a + "." + b;
    if a == [] {
      assert s[1..] == b;
    } else {
      SplitOnceAt(a[1..], b);
      assert s[1..] == a[1..] + "." + b;
      assert [a[0]] + a[1..] == a;
    }
  }

  lemma {:induction false} SplitOnceJoins(s: string)
    requires SplitOnce(s).Some?
    ensures s == SplitOnce(s).value.0 + "." + SplitOnce(s).value.1
  {
    if s[0] == '.' {
      assert s == [] + "." + s[1..];
    } else {
      SplitOnceJoins(s[1..]);
      assert s == [s[0]] + s[1..];
    }
  }

  /** One of the ten digits or more, and nothing else. */
  predicate OnlyDigits(s: string) {
    |s| >= 1 && forall i :: 0 <= i < |s| ==> s[i] in "0123456789"
  }

  lemma DigitsOnly(s: string)
    ensures IsDigits(s) <==> OnlyDigits(s)
  {
    assert "0123456789"[0] == '0' && "0123456789"[1] == '1' && "0123456789"[2] == '2' && "0123456789"[3] == '3';
    assert "0123456789"[4] == '4' && "0123456789"[5] == '5' && "0123456789"[6] == '6' && "0123456789"[7] == '7';
    assert "0123456789"[8] == '8' && "0123456789"[9] == '9';
    forall c: char ensures '0' <= c <= '9' <==> c in "0123456789" {}
  }

  /** `kobo.<n>.<m>`. */
  function SpanId(n: string, m: string): string {
    "kobo" + "." + (n + "." + m)
  }

  /** The ids of koboSpans are exactly the `kobo.<digits>.<digits>`, and `kobo.<n>` is their paragraph. */
  lemma SpanIds(id: string)
    ensures IsKoboSpanId(id) <==> exists n, m :: OnlyDigits(n) && OnlyDigits(m) && id == SpanId(n, m)
    ensures forall n, m :: OnlyDigits(n) && OnlyDigits(m) && id == SpanId(n, m) ==> ParagraphKey(id) == "kobo." + n
  {
    if IsKoboSpanId(id) {
      SplitOnceJoins(id);
      SplitOnceJoins(SplitOnce(id).value.1);
      var (n, m) := SplitOnce(SplitOnce(id).value.1).value;
      DigitsOnly(n);
      DigitsOnly(m);
      assert OnlyDigits(n) && OnlyDigits(m) && id == SpanId(n, m);
    }
    forall n, m | OnlyDigits(n) && OnlyDigits(m) && id == SpanId(n, m)
      ensures IsKoboSpanId(id) && ParagraphKey(id) == "kobo." + n
    {
      SpanIdParts(n, m);
    }
  }

  lemma SpanIdParts(n: string, m: string)
    requires OnlyDigits(n) && OnlyDigits(m)
    ensures IsKoboSpanId(SpanId(n, m)) && ParagraphKey(SpanId(n, m)) == "kobo." + n
  {
    DigitsOnly(n);
    DigitsOnly(m);
    SplitOnceAt("kobo", n + "." + m);
    SplitOnceAt(n, m);
    LastDot("kobo." + n, m);
    SpanIdJoins(n, m);
  }

  lemma SpanIdJoins(n: string, m: string)
    ensures SpanId(n, m) == "kobo." + n + "." + m
  {
    assert "kobo" + "." == "kobo.";
    assert "kobo." + (n + "." + m) == "kobo." + n + "." + m;
  }

  lemma {:induction false} LastDot(a: string, b: string)
    requires forall i :: 0 <= i < |b| ==> b[i] != '.'
    ensures BeforeLastDot(a + "." + b) == Some(a)
  {
    var s := a + "." + b;
    if b == [] {
      assert s[..|s| - 1] == a;
    } else {
      LastDot(a, b[..|b| - 1]);
      assert s[..|s| - 1] == a + "." + b[..|b| - 1];
    }
  }

  // ------------------------------------------------------------- the parser

  /** The open span's id, its text so far, and how many elements are open inside it. */
  datatype Open = Open(id: string, text: string, depth: nat)

  datatype State = State(spans: seq<Span>, open: Option<Open>)

  function AddText(st: State, text: string): State {
    match st.open
    case Some(o) => st.(open := Some(o.(text := o.text + text)))
    case None => st
  }

  /** One event; `None` is an unreadable book. */
  function Step(st: State, e: Event): Option<State> {
    match e
    case Start(id) =>
      if st.open.Some? then Some(st.(open := Some(st.open.value.(depth := st.open.value.depth + 1))))
      else if id.Some? && IsKoboSpanId(id.value) then Some(st.(open := Some(Open(id.value, "", 0))))
      else Some(st)
    case End =>
      if st.open.None? then Some(st)
      else
        var o := st.open.value;
        if o.depth == 0 then Some(State(st.spans + [Span(o.id, o.text)], None))
        else Some(st.(open := Some(o.(depth := o.depth - 1))))
    case Text(decoded) =>
      if st.open.None? then Some(st) else if decoded.None? then None else Some(AddText(st, decoded.value))
    case CData(decoded) =>
      if st.open.None? then Some(st) else if decoded.None? then None else Some(AddText(st, decoded.value))
    case GeneralRef(resolved) =>
      if resolved.None? then None else Some(AddText(st, [resolved.value]))
    case Other => Some(st)
  }

  function Steps(st: State, events: seq<Event>): Option<State> {
    if events == [] then Some(st)
    else match Steps(st, events[..|events| - 1])
      case None => None
      case Some(mid) => Step(mid, events[|events| - 1])
  }

  /** The spans of a whole stream; `None` is `KepubError::Unreadable`. */
  function SpansOf(events: seq<Event>): Option<seq<Span>> {
    match Steps(State([], None), events)
    case None => None
    case Some(st) => Some(st.spans)
  }

  /** `parse_spans`. */
  method ParseSpans(events: seq<Event>) returns (parsed: Option<seq<Span>>)
    ensures parsed == SpansOf(events)
  {
    var spans: seq<Span> := [];
    var open: Option<Open> := None;
    for i := 0 to |events|
      invariant Steps(State([], None), events[..i]) == Some(State(spans, open))
    {
      assert events[..i + 1][..i] == events[..i];
      assert Steps(State([], None), events[..i + 1]) == Step(State(spans, open), events[i]);
      match events[i] {
        case Start(id) =>
          if open.Some? {
            open := Some(open.value.(depth := open.value.depth + 1));
          } else if id.Some? && IsKoboSpanId(id.value) {
            open := Some(Open(id.value, "", 0));
          }
        case End =>
          if open.Some? {
            var o := open.value;
            if o.depth == 0 {
              spans := spans + [Span(o.id, o.text)];
              open := None;
            } else {
              open := Some(o.(depth := o.depth - 1));
            }
          }
        case Text(decoded) =>
          if open.Some? {
            if decoded.None? { StepsStuck(State([], None), events, i + 1); return None; }
            open := Some(open.value.(text := open.value.text + decoded.value));
          }
        case CData(decoded) =>
          if open.Some? {
            if decoded.None? { StepsStuck(State([], None), events, i + 1); return None; }
            open := Some(open.value.(text := open.value.text + decoded.value));
          }
        case GeneralRef(resolved) =>
          if resolved.None? { StepsStuck(State([], None), events, i + 1); return None; }
          if open.Some? {
            open := Some(open.value.(text := open.value.text + [resolved.value]));
          }
        case Other =>
      }
    }
    assert events[..|events|] == events;
    return Some(spans);
  }

  lemma {:induction false} StepsStuck(st: State, events: seq<Event>, n: nat)
    requires n <= |events| && Steps(st, events[..n]).None?
    ensures Steps(st, events).None?
    decreases |events|
  {
    if n == |events| {
      assert events[..n] == events;
    } else {
      assert events[..|events| - 1][..n] == events[..n];
      StepsStuck(st, events[..|events| - 1], n);
    }
  }

  // ------------------------------------------------------- against the tree

  /** A chapter's markup; a leaf is any event but a tag. */
  datatype Node = Element(id: Option<string>, children: seq<Node>) | Leaf(event: Event)

  predicate IsTag(e: Event) {
    e.Start? || e.End?
  }

  predicate WellFormed(nodes: seq<Node>) {
    forall i :: 0 <= i < |nodes| ==>
      match nodes[i] case Element(_, children) => WellFormed(children) case Leaf(e) => !IsTag(e)
  }

  /** The events a reader emits for `nodes`. */
  function Flatten(nodes: seq<Node>): seq<Event> {
    if nodes == [] then []
    else FlattenOne(nodes[0]) + Flatten(nodes[1..])
  }

  function FlattenOne(node: Node): seq<Event> {
    match node
    case Element(id, children) => [Start(id)] + Flatten(children) + [End]
    case Leaf(e) => [e]
  }

  /** All the text beneath `nodes`, in document order; `None` if some of it cannot be read. */
  function TextOf(nodes: seq<Node>): Option<string> {
    if nodes == [] then Some("")
    else
      match (TextOfOne(nodes[0]), TextOf(nodes[1..]))
      case (Some(a), Some(b)) => Some(a + b)
      case _ => None
  }

  function TextOfOne(node: Node): Option<string> {
    match node
    case Element(_, children) => TextOf(children)
    case Leaf(Text(decoded)) => decoded
    case Leaf(CData(decoded)) => decoded
    case Leaf(GeneralRef(resolved)) => if resolved.Some? then Some([resolved.value]) else None
    case Leaf(_) => Some("")
  }

  /** The outermost elements with a koboSpan id, in document order, each with all the text beneath it. */
  function Outermost(nodes: seq<Node>): Option<seq<Span>> {
    if nodes == [] then Some([])
    else
      match (OutermostOne(nodes[0]), Outermost(nodes[1..]))
      case (Some(a), Some(b)) => Some(a + b)
      case _ => None
  }

  function OutermostOne(node: Node): Option<seq<Span>> {
    match node
    case Element(id, children) =>
      if id.Some? && IsKoboSpanId(id.value) then
        (match TextOf(children) case Some(text) => Some([Span(id.value, text)]) case None => None)
      else Outermost(children)
    case Leaf(GeneralRef(resolved)) => if resolved.Some? then Some([]) else None
    case Leaf(_) => Some([])
  }

  lemma {:induction false} StepsConcat(st: State, a: seq<Event>, b: seq<Event>)
    ensures Steps(st, a + b) == match Steps(st, a) case None => None case Some(mid) => Steps(mid, b)
    decreases |b|
  {
    if b == [] {
      assert a + b == a;
    } else {
      StepsConcat(st, a, b[..|b| - 1]);
      assert (a + b)[..|a + b| - 1] == a + b[..|b| - 1];
    }
  }

  lemma StepsOne(st: State, e: Event)
    ensures Steps(st, [e]) == Step(st, e)
  {
    assert [e][..0] == [];
  }

  lemma AddNothing(st: State)
    requires st.open.Some?
    ensures AddText(st, "") == st
  {
    assert st.open.value.text + "" == st.open.value.text;
  }

  lemma AddTwice(st: State, a: string, b: string)
    requires st.open.Some?
    ensures AddText(AddText(st, a), b) == AddText(st, a + b)
  {
    assert (st.open.value.text + a) + b == st.open.value.text + (a + b);
  }

  /** Inside an open span only the text beneath counts, however deep. */
  lemma {:induction false} InsideSpan(st: State, nodes: seq<Node>)
    requires WellFormed(nodes) && st.open.Some?
    ensures Steps(st, Flatten(nodes))
            == match TextOf(nodes) case None => None case Some(text) => Some(AddText(st, text))
    decreases nodes
  {
    if nodes == [] {
      AddNothing(st);
    } else {
      InsideSpanOne(st, nodes[0]);
      StepsConcat(st, FlattenOne(nodes[0]), Flatten(nodes[1..]));
      if TextOfOne(nodes[0]).Some? {
        var a := TextOfOne(nodes[0]).value;
        InsideSpan(AddText(st, a), nodes[1..]);
        if TextOf(nodes[1..]).Some? {
          AddTwice(st, a, TextOf(nodes[1..]).value);
        }
      }
    }
  }

  lemma {:induction false} InsideSpanOne(st: State, node: Node)
    requires (match node case Element(_, children) => WellFormed(children) case Leaf(e) => !IsTag(e)) && st.open.Some?
    ensures Steps(st, FlattenOne(node))
            == match TextOfOne(node) case None => None case Some(text) => Some(AddText(st, text))
    decreases node
  {
    var o := st.open.value;
    match node
    case Leaf(e) =>
      StepsOne(st, e);
      AddNothing(st);
    case Element(id, children) =>
      var inner := st.(open := Some(o.(depth := o.depth + 1)));
      StepsOne(st, Start(id));
      InsideSpan(inner, children);
      StepsConcat(st, [Start(id)] + Flatten(children), [End]);
      StepsConcat(st, [Start(id)], Flatten(children));
      if TextOf(children).Some? { StepsOne(AddText(inner, TextOf(children).value), End); }
  }

  function Found(spans: seq<Span>, found: Option<seq<Span>>): Option<State> {
    match found case None => None case Some(more) => Some(State(spans + more, None))
  }

  lemma FoundTwice(spans: seq<Span>, a: seq<Span>, b: Option<seq<Span>>)
    ensures Found(spans + a, b) == Found(spans, match b case None => None case Some(x) => Some(a + x))
  {
    if b.Some? { assert (spans + a) + b.value == spans + (a + b.value); }
  }

  /** Outside any span, what is added is exactly the outermost spans. */
  lemma {:induction false} OutsideSpan(spans: seq<Span>, nodes: seq<Node>)
    requires WellFormed(nodes)
    ensures Steps(State(spans, None), Flatten(nodes)) == Found(spans, Outermost(nodes))
    decreases nodes
  {
    if nodes == [] {
      assert spans + [] == spans;
    } else {
      OutsideSpanOne(spans, nodes[0]);
      StepsConcat(State(spans, None), FlattenOne(nodes[0]), Flatten(nodes[1..]));
      if OutermostOne(nodes[0]).Some? {
        OutsideSpan(spans + OutermostOne(nodes[0]).value, nodes[1..]);
        FoundTwice(spans, OutermostOne(nodes[0]).value, Outermost(nodes[1..]));
      }
    }
  }

  lemma {:induction false} OutsideSpanOne(spans: seq<Span>, node: Node)
    requires match node case Element(_, children) => WellFormed(children) case Leaf(e) => !IsTag(e)
    ensures Steps(State(spans, None), FlattenOne(node)) == Found(spans, OutermostOne(node))
    decreases node
  {
    var st := State(spans, None);
    match node
    case Leaf(e) =>
      StepsOne(st, e);
      assert spans + [] == spans;
    case Element(id, children) =>
      StepsOne(st, Start(id));
      StepsConcat(st, [Start(id)] + Flatten(children), [End]);
      StepsConcat(st, [Start(id)], Flatten(children));
      if id.Some? && IsKoboSpanId(id.value) {
        var inner := State(spans, Some(Open(id.value, "", 0)));
        InsideSpan(inner, children);
        if TextOf(children).Some? {
          assert "" + TextOf(children).value == TextOf(children).value;
          StepsOne(AddText(inner, TextOf(children).value), End);
        }
      } else {
        OutsideSpan(spans, children);
        if Outermost(children).Some? { StepsOne(State(spans + Outermost(children).value, None), End); }
      }
  }

  /** The parser answers a chapter's outermost koboSpans, in document order, with all the text beneath each. */
  lemma ParsesOutermost(nodes: seq<Node>)
    requires WellFormed(nodes)
    ensures SpansOf(Flatten(nodes)) == Outermost(nodes)
  {
    OutsideSpan([], nodes);
    if Outermost(nodes).Some? { assert [] + Outermost(nodes).value == Outermost(nodes).value; }
  }
}
