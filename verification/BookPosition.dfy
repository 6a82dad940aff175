/** Whole-book positions: character prefix sums, fractions of a book, and back to a place in one document. */
module BookPosition {
  import opened Basics

  /** One spine document as extracted, and as stored. */
  datatype Document = Document(index: int, visible: int)
  datatype Row = Row(index: int, visible: int, before: int)

  function Max0(x: int): nat {
    if x < 0 then 0 else x
  }

  function Clamp(x: real, lo: real, hi: real): real {
    if x < lo then lo else if x > hi then hi else x
  }

  /** The characters of the first `n` documents. */
  function CharsTo(docs: seq<Document>, n: nat): int
    requires n <= |docs|
  {
    if n == 0 then 0 else CharsTo(docs, n - 1) + docs[n - 1].visible
  }

  /** The accumulator of `replace_structure`. */
  method StoreRows(docs: seq<Document>) returns (rows: seq<Row>)
    ensures |rows| == |docs|
    ensures forall i :: 0 <= i < |docs| ==> rows[i] == Row(docs[i].index, docs[i].visible, CharsTo(docs, i))
  {
    rows := [];
    var charsBefore := 0;
    for i := 0 to |docs|
      invariant |rows| == i && charsBefore == CharsTo(docs, i)
      invariant forall j :: 0 <= j < i ==> rows[j] == Row(docs[j].index, docs[j].visible, CharsTo(docs, j))
    {
      rows := rows + [Row(docs[i].index, docs[i].visible, charsBefore)];
      charsBefore := charsBefore + docs[i].visible;
    }
  }

  /** The book's characters, over the first `n` rows. */
  function TotalTo(stats: seq<Row>, n: nat): nat
    requires n <= |stats|
  {
    if n == 0 then 0 else TotalTo(stats, n - 1) + Max0(stats[n - 1].visible)
  }

  function Total(stats: seq<Row>): nat {
    TotalTo(stats, |stats|)
  }

  /** The first row for a spine index. */
  function Find(stats: seq<Row>, index: int): (r: Option<Row>)
    ensures r.Some? ==> r.value in stats && r.value.index == index
  {
    if stats == [] then None
    else if stats[0].index == index then Some(stats[0])
    else Find(stats[1..], index)
  }

  /** `fraction_at`. */
  function FractionAt(stats: seq<Row>, index: int, offset: nat): Option<real> {
    match Find(stats, index)
    case None => None
    case Some(row) =>
      var total := Total(stats);
      if total == 0 then Some(0.0)
      else Some(Clamp((Max0(row.before) + offset) as real / total as real, 0.0, 1.0))
  }

  /** The last of the rows with text starting at or before `at` that starts furthest on. */
  function BestRow(stats: seq<Row>, n: nat, at: int): (r: Option<Row>)
    requires n <= |stats|
  {
    if n == 0 then None
    else
      var best, row := BestRow(stats, n - 1, at), stats[n - 1];
      if row.visible > 0 && Max0(row.before) <= at && (best.None? || best.value.before <= row.before) then Some(row)
      else best
  }

  /** The character a fraction of the book falls on. */
  function CharAt(total: nat, fraction: real): int {
    var at := (Clamp(fraction, 0.0, 1.0) * total as real).Floor;
    if at < 0 then 0 else if at > total - 1 then total - 1 else at
  }

  /** `position_at_fraction`. */
  function PositionAtFraction(stats: seq<Row>, fraction: real): Option<(int, nat)> {
    var total := Total(stats);
    if total == 0 then None
    else
      var at := CharAt(total, fraction);
      match BestRow(stats, |stats|, at)
      case None => None
      case Some(row) => Some((row.index, Max0(at - Max0(row.before))))
  }

  /** `percent_at`. */
  function PercentAt(stats: seq<Row>, index: int, offset: nat): Option<int> {
    match FractionAt(stats, index, offset)
    case None => None
    case Some(f) =>
      var p := (100.0 * f).Floor;
      Some(if p < 0 then 0 else if p > 100 then 100 else p)
  }

  datatype ChapterRow = ChapterRow(ordinal: int, title: string, index: int)
  datatype Placement = Placement(index: Option<int>, chapter: Option<string>, percent: Option<real>)

  /** `max_by_key` over (spine index, reversed ordinal): the last of equal maxima. */
  function OpeningChapter(chapters: seq<ChapterRow>, n: nat, index: int): Option<ChapterRow>
    requires n <= |chapters|
  {
    if n == 0 then None
    else
      var best, c := OpeningChapter(chapters, n - 1, index), chapters[n - 1];
      if c.index > index then best
      else if best.None? || best.value.index < c.index || (best.value.index == c.index && c.ordinal <= best.value.ordinal)
      then Some(c)
      else best
  }

  /** `locate_spine`. */
  function LocateSpine(stats: seq<Row>, chapters: seq<ChapterRow>, index: int): Placement {
    match Find(stats, index)
    case None => Placement(Some(index), None, None)
    case Some(row) =>
      var total := Total(stats);
      var percent := if total > 0 then Some(Clamp(Max0(row.before) as real / total as real * 100.0, 0.0, 100.0)) else None;
      var chapter := match OpeningChapter(chapters, |chapters|, index) case None => None case Some(c) => Some(c.title);
      Placement(Some(index), chapter, percent)
  }

  // ---------------------------------------------------------- well laid out

  /** Row `r` holds character `at` of the book. */
  predicate Holds(r: Row, at: int) {
    r.before <= at < r.before + r.visible
  }

  predicate Apart(r: Row, s: Row) {
    r.before + r.visible <= s.before || s.before + s.visible <= r.before
  }

  predicate Held(stats: seq<Row>, at: int) {
    exists i :: 0 <= i < |stats| && Holds(stats[i], at)
  }

  /**
   * Rows that lay the book out: each document once, none overlapping, together every character. Nothing
   * depends on the order of the rows.
   */
  ghost predicate Tiles(stats: seq<Row>) {
    && Separate(stats)
    && (forall i :: 0 <= i < |stats| ==> Inside(stats[i], Total(stats)))
    && (forall at :: 0 <= at < Total(stats) ==> Held(stats, at))
  }

  predicate Separate(stats: seq<Row>) {
    forall i, j :: 0 <= i < j < |stats| ==> stats[i].index != stats[j].index && Apart(stats[i], stats[j])
  }

  predicate Inside(r: Row, total: int) {
    r.visible >= 0 && r.before >= 0 && r.before + r.visible <= total
  }

  /** Rows as `replace_structure` writes them. */
  predicate AsStored(docs: seq<Document>, stats: seq<Row>) {
    |stats| == |docs| && forall i :: 0 <= i < |docs| ==> stats[i] == Row(docs[i].index, docs[i].visible, CharsTo(docs, i))
  }

  /** Extraction counts characters, and names each spine step once. */
  predicate Measured(docs: seq<Document>) {
    && (forall i :: 0 <= i < |docs| ==> docs[i].visible >= 0)
    && (forall i, j :: 0 <= i < j < |docs| ==> docs[i].index != docs[j].index)
  }

  lemma {:induction false} CharsGrow(docs: seq<Document>, m: nat, n: nat)
    requires Measured(docs) && m <= n <= |docs|
    ensures 0 <= CharsTo(docs, m) <= CharsTo(docs, n)
    decreases n
  {
    if m < n {
      CharsGrow(docs, m, n - 1);
    } else if n > 0 {
      CharsGrow(docs, n - 1, n - 1);
    }
  }

  lemma {:induction false} TotalIsChars(docs: seq<Document>, stats: seq<Row>, n: nat)
    requires Measured(docs) && AsStored(docs, stats) && n <= |docs|
    ensures TotalTo(stats, n) == CharsTo(docs, n)
  {
    if n > 0 {
      TotalIsChars(docs, stats, n - 1);
    }
  }

  lemma {:induction false} Holder(docs: seq<Document>, stats: seq<Row>, n: nat, at: int) returns (i: nat)
    requires AsStored(docs, stats) && n <= |docs| && 0 <= at < CharsTo(docs, n)
    ensures i < n && Holds(stats[i], at)
  {
    if CharsTo(docs, n - 1) <= at {
      i := n - 1;
    } else {
      i := Holder(docs, stats, n - 1, at);
    }
  }

  lemma StoredSeparate(docs: seq<Document>, stats: seq<Row>)
    requires Measured(docs) && AsStored(docs, stats)
    ensures Separate(stats)
  {
    forall i, j | 0 <= i < j < |stats| ensures stats[i].index != stats[j].index && Apart(stats[i], stats[j]) {
      CharsGrow(docs, i + 1, j);
    }
  }

  lemma StoredInside(docs: seq<Document>, stats: seq<Row>, i: nat)
    requires Measured(docs) && AsStored(docs, stats) && i < |docs|
    ensures Inside(stats[i], CharsTo(docs, |docs|))
  {
    CharsGrow(docs, 0, i);
    CharsGrow(docs, i + 1, |docs|);
  }

  /** What is stored lays the book out. */
  lemma StoredTiles(docs: seq<Document>, stats: seq<Row>)
    requires Measured(docs) && AsStored(docs, stats)
    ensures Tiles(stats)
  {
    TotalIsChars(docs, stats, |docs|);
    StoredSeparate(docs, stats);
    forall i | 0 <= i < |stats| ensures Inside(stats[i], Total(stats)) {
      StoredInside(docs, stats, i);
    }
    forall at | 0 <= at < Total(stats) ensures Held(stats, at) {
      var i := Holder(docs, stats, |docs|, at);
    }
  }

  // ------------------------------------------------------------- the inverse

  lemma {:induction false} BestIsRow(stats: seq<Row>, n: nat, at: int)
    requires n <= |stats|
    ensures var best := BestRow(stats, n, at);
            && (best.Some? ==> best.value in stats[..n] && best.value.visible > 0 && Max0(best.value.before) <= at)
            && forall i :: 0 <= i < n && stats[i].visible > 0 && Max0(stats[i].before) <= at
                 ==> best.Some? && stats[i].before <= best.value.before
  {
    if n > 0 {
      BestIsRow(stats, n - 1, at);
      assert stats[..n] == stats[..n - 1] + [stats[n - 1]];
    }
  }

  /** The row picked for a character is the one that holds it. */
  lemma BestHolds(stats: seq<Row>, at: int) returns (i: nat)
    requires Tiles(stats) && 0 <= at < Total(stats)
    ensures i < |stats| && BestRow(stats, |stats|, at) == Some(stats[i]) && Holds(stats[i], at)
  {
    BestIsRow(stats, |stats|, at);
    assert Held(stats, at);
    var h :| 0 <= h < |stats| && Holds(stats[h], at);
    var best := BestRow(stats, |stats|, at).value;
    assert stats[..|stats|] == stats;
    i :| 0 <= i < |stats| && stats[i] == best;
  }

  lemma {:induction false} FindsOnly(stats: seq<Row>, i: nat)
    requires i < |stats| && forall a, b :: 0 <= a < b < |stats| ==> stats[a].index != stats[b].index
    ensures Find(stats, stats[i].index) == Some(stats[i])
  {
    if i > 0 {
      FindsOnly(stats[1..], i - 1);
    }
  }

  lemma DivideBack(at: real, total: real)
    requires total > 0.0
    ensures at / total * total == at
    ensures 0.0 <= at <= total ==> 0.0 <= at / total <= 1.0
  {}

  lemma DivideOrder(a: real, b: real, total: real)
    requires total > 0.0 && a <= b
    ensures a / total <= b / total
  {}

  /** A place in a document, as a fraction of the book. */
  lemma FractionIs(stats: seq<Row>, i: nat, offset: nat)
    requires Tiles(stats) && i < |stats| && offset <= stats[i].visible && Total(stats) > 0
    ensures FractionAt(stats, stats[i].index, offset) == Some((stats[i].before + offset) as real / Total(stats) as real)
  {
    FindsOnly(stats, i);
    DivideBack((stats[i].before + offset) as real, Total(stats) as real);
  }

  lemma CharAtExact(total: nat, at: nat)
    requires at < total
    ensures CharAt(total, at as real / total as real) == at
  {
    DivideBack(at as real, total as real);
  }

  /** Every character of the book is found again from its fraction. */
  lemma PositionIsFoundAgain(stats: seq<Row>, i: nat, offset: nat)
    requires Tiles(stats) && i < |stats| && offset < stats[i].visible
    ensures var f := FractionAt(stats, stats[i].index, offset);
            f.Some? && PositionAtFraction(stats, f.value) == Some((stats[i].index, offset))
  {
    FractionIs(stats, i, offset);
    var at := stats[i].before + offset;
    CharAtExact(Total(stats), at);
    var k := BestHolds(stats, at);
    assert k == i;
  }

  lemma CharAtBounds(total: nat, fraction: real)
    requires total > 0
    ensures var at, exact := CharAt(total, fraction), Clamp(fraction, 0.0, 1.0) * total as real;
            && 0 <= at < total
            && at as real <= exact <= at as real + 1.0
            && (fraction < 1.0 ==> exact < at as real + 1.0)
  {
    ScaleBounds(Clamp(fraction, 0.0, 1.0), total as real);
  }

  lemma ScaleBounds(c: real, total: real)
    requires 0.0 <= c <= 1.0 && total > 0.0
    ensures 0.0 <= c * total <= total
    ensures c < 1.0 ==> c * total < total
  {}

  /** `g` is below `f` by no more than one character of `total`, by less unless `f` is the end of the book. */
  predicate WithinOneChar(g: real, f: real, total: nat)
    requires total > 0
  {
    g <= Clamp(f, 0.0, 1.0) <= g + 1.0 / total as real && (f < 1.0 ==> Clamp(f, 0.0, 1.0) < g + 1.0 / total as real)
  }

  lemma CharWithinOne(total: nat, fraction: real)
    requires total > 0
    ensures WithinOneChar(CharAt(total, fraction) as real / total as real, fraction, total)
  {
    CharAtBounds(total, fraction);
    Unscale(Clamp(fraction, 0.0, 1.0), CharAt(total, fraction) as real, total as real);
  }

  /** A fraction leads to a character of the book that is at most one character below it. */
  lemma FractionIsFoundAgain(stats: seq<Row>, fraction: real) returns (i: nat, offset: nat)
    requires Tiles(stats) && Total(stats) > 0
    ensures i < |stats| && offset < stats[i].visible
    ensures PositionAtFraction(stats, fraction) == Some((stats[i].index, offset))
    ensures stats[i].before + offset == CharAt(Total(stats), fraction)
    ensures var g := FractionAt(stats, stats[i].index, offset);
            g.Some? && WithinOneChar(g.value, fraction, Total(stats))
  {
    var at := CharAt(Total(stats), fraction);
    CharAtBounds(Total(stats), fraction);
    CharWithinOne(Total(stats), fraction);
    i := BestHolds(stats, at);
    offset := at - stats[i].before;
    FractionIs(stats, i, offset);
  }

  lemma Unscale(c: real, at: real, total: real)
    requires total > 0.0 && at <= c * total <= at + 1.0
    ensures at / total <= c <= at / total + 1.0 / total
    ensures c * total < at + 1.0 ==> c < at / total + 1.0 / total
  {
    DivideBack(at, total);
    DivideBack(1.0, total);
    var lo, step := at / total, 1.0 / total;
    assert (lo + step) * total == at + 1.0;
    if c < lo {
      Grows(c, lo, total);
    }
    if c > lo + step {
      Grows(lo + step, c, total);
    }
  }

  lemma Grows(a: real, b: real, total: real)
    requires total > 0.0 && a < b
    ensures a * total < b * total
  {}

  lemma FloorGrows(x: real, y: real)
    requires x <= y
    ensures x.Floor <= y.Floor
  {}

  lemma ScaledOrder(a: real, b: real, total: real)
    requires a <= b && total >= 0.0
    ensures a * total <= b * total
  {}

  lemma ClampOrder(f: real, g: real)
    requires f <= g
    ensures Clamp(f, 0.0, 1.0) <= Clamp(g, 0.0, 1.0)
  {}

  lemma CharAtGrows(total: nat, f: real, g: real)
    requires f <= g
    ensures CharAt(total, f) <= CharAt(total, g)
  {
    var a, b, t := Clamp(f, 0.0, 1.0), Clamp(g, 0.0, 1.0), total as real;
    ClampOrder(f, g);
    ScaledOrder(a, b, t);
    FloorGrows(a * t, b * t);
  }

  predicate Ascending(docs: seq<Document>) {
    forall i, j :: 0 <= i < j < |docs| ==> docs[i].index < docs[j].index
  }

  lemma PlacesInOrder(docs: seq<Document>, i: nat, m: nat, j: nat, n: nat)
    requires Measured(docs) && Ascending(docs) && i < |docs| && j < |docs|
    requires m < docs[i].visible && n < docs[j].visible && CharsTo(docs, i) + m <= CharsTo(docs, j) + n
    ensures docs[i].index < docs[j].index || (i == j && m <= n)
  {
    if j < i {
      CharsGrow(docs, j + 1, i);
    }
  }

  /** A further fraction is never an earlier place: not an earlier document, nor an earlier character of one. */
  lemma FurtherFractionFurtherPlace(docs: seq<Document>, stats: seq<Row>, f: real, g: real)
    requires Measured(docs) && AsStored(docs, stats) && Ascending(docs) && Total(stats) > 0 && f <= g
    ensures var p, q := PositionAtFraction(stats, f), PositionAtFraction(stats, g);
            p.Some? && q.Some? && (p.value.0 < q.value.0 || (p.value.0 == q.value.0 && p.value.1 <= q.value.1))
  {
    StoredTiles(docs, stats);
    CharAtGrows(Total(stats), f, g);
    var i, m := FractionIsFoundAgain(stats, f);
    var j, n := FractionIsFoundAgain(stats, g);
    PlacesInOrder(docs, i, m, j, n);
  }

  /** A further place is never an earlier fraction, for any offset the caller gives. */
  lemma FurtherPlaceFurtherFraction(stats: seq<Row>, i: nat, m: nat, j: nat, n: nat)
    requires Tiles(stats) && i < |stats| && j < |stats| && stats[i].before + m <= stats[j].before + n
    ensures var p, q := FractionAt(stats, stats[i].index, m), FractionAt(stats, stats[j].index, n);
            p.Some? && q.Some? && 0.0 <= p.value <= q.value <= 1.0
    ensures PercentAt(stats, stats[i].index, m).value <= PercentAt(stats, stats[j].index, n).value
  {
    FindsOnly(stats, i);
    FindsOnly(stats, j);
    if Total(stats) > 0 {
      DivideOrder((stats[i].before + m) as real, (stats[j].before + n) as real, Total(stats) as real);
    }
  }

  // ------------------------------------------------- one percent, two readers

  /** An annotation's percent is a hundred times the fraction at its document's start, and floors to `percent_at`. */
  lemma AnchorAgreesWithFraction(stats: seq<Row>, chapters: seq<ChapterRow>, index: int)
    ensures var p, f := LocateSpine(stats, chapters, index).percent, FractionAt(stats, index, 0);
            if Total(stats) > 0 && Find(stats, index).Some? then
              f.Some? && p == Some(100.0 * f.value) && PercentAt(stats, index, 0) == Some(p.value.Floor)
            else p.None?
  {
    if Find(stats, index).Some? && Total(stats) > 0 {
      var b, t := Max0(Find(stats, index).value.before) as real, Total(stats) as real;
      assert (b + 0.0) / t == b / t;
      NonNegative(b, t);
    }
  }

  lemma NonNegative(b: real, t: real)
    requires b >= 0.0 && t > 0.0
    ensures b / t >= 0.0
  {}

  /** The chapter named is the first of those at the highest spine step not past the anchor. */
  lemma {:induction false} OpeningChapterIsFirst(chapters: seq<ChapterRow>, n: nat, index: int)
    requires n <= |chapters|
    ensures var best := OpeningChapter(chapters, n, index);
            && (best.Some? ==> best.value in chapters[..n] && best.value.index <= index)
            && forall i :: 0 <= i < n && chapters[i].index <= index ==>
                 && best.Some? && chapters[i].index <= best.value.index
                 && (chapters[i].index == best.value.index ==> best.value.ordinal <= chapters[i].ordinal)
  {
    if n > 0 {
      OpeningChapterIsFirst(chapters, n - 1, index);
      assert chapters[..n] == chapters[..n - 1] + [chapters[n - 1]];
    }
  }

  lemma {:induction false} FindsSome(stats: seq<Row>, index: int)
    ensures Find(stats, index).Some? <==> Measures(stats, index)
  {
    if stats != [] && stats[0].index != index {
      FindsSome(stats[1..], index);
      if i :| 0 <= i < |stats| && stats[i].index == index {
        assert stats[1..][i - 1].index == index;
      }
      if i :| 0 <= i < |stats| - 1 && stats[1..][i].index == index {
        assert stats[i + 1].index == index;
      }
    }
  }

  /** The stored rows cover that spine step. */
  predicate Measures(stats: seq<Row>, index: int) {
    exists i :: 0 <= i < |stats| && stats[i].index == index
  }

  /** Among the chapters not past the anchor, none starts at a later step, and none at the same step comes before it. */
  predicate Opens(chapters: seq<ChapterRow>, i: nat, index: int) {
    && i < |chapters| && chapters[i].index <= index
    && forall j :: 0 <= j < |chapters| && chapters[j].index <= index ==>
         chapters[j].index <= chapters[i].index
         && (chapters[j].index == chapters[i].index ==> chapters[i].ordinal <= chapters[j].ordinal)
  }

  /**
   * What an anchor is told: its own spine step always; where the rows cover that step, the title of the first chapter at
   * the highest step not past it, if any chapter is not past it, and a percent unless the book measured empty.
   */
  lemma AnchorIsPlaced(stats: seq<Row>, chapters: seq<ChapterRow>, index: int)
    ensures var p := LocateSpine(stats, chapters, index);
            && p.index == Some(index)
            && (p.chapter.Some? <==>
                  Measures(stats, index) && exists i :: 0 <= i < |chapters| && chapters[i].index <= index)
            && (p.chapter.Some? ==> exists i: nat :: Opens(chapters, i, index) && p.chapter == Some(chapters[i].title))
            && (p.percent.Some? <==> Measures(stats, index) && Total(stats) > 0)
  {
    FindsSome(stats, index);
    OpeningChapterIsFirst(chapters, |chapters|, index);
    assert chapters[..|chapters|] == chapters;
    if OpeningChapter(chapters, |chapters|, index).Some? {
      var c := OpeningChapter(chapters, |chapters|, index).value;
      var i :| 0 <= i < |chapters| && chapters[i] == c;
      assert Opens(chapters, i, index);
    }
  }

  /** In a book that measured empty every covered place is at its start, and no fraction leads anywhere. */
  lemma EmptyBook(stats: seq<Row>, index: int, offset: nat, fraction: real)
    requires Total(stats) == 0
    ensures FractionAt(stats, index, offset) == (if Measures(stats, index) then Some(0.0) else None)
    ensures PercentAt(stats, index, offset) == (if Measures(stats, index) then Some(0) else None)
    ensures PositionAtFraction(stats, fraction) == None
  {
    FindsSome(stats, index);
  }
}
