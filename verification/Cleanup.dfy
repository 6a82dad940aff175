/** Duplicate detection: which rows are proposed for merging, whatever order they are met in. */
module Cleanup {
  import opened Basics
  import opened Text

  /** One taxonomy row; `key` is its normalized sort name, `books` the books that carry it. */
  datatype Row = Row(id: int, name: string, key: Option<string>, books: set<int>)

  datatype Tier = Zero | One

  datatype Suggestion = Suggestion(
    tier: Tier, score: real, primary: string, secondary: Option<string>, bookCount: nat,
    sourceIds: seq<int>, sourceNames: seq<string>, canonicalId: int, canonicalName: string)

  // ---------------------------------------------------------------- the plan

  /** One merge to propose. */
  datatype Merge = Merge(tier: Tier, score: real, group: set<Row>)

  predicate IdsDistinct(rows: set<Row>) {
    forall a, b :: a in rows && b in rows && a.id == b.id ==> a == b
  }

  function Group(rows: set<Row>, key: string): set<Row> {
    set r | r in rows && r.key == Some(key)
  }

  function Words(r: Row): seq<string> {
    if r.key.Some? then Split(r.key.value) else []
  }

  function Elems<T>(q: seq<T>): set<T> {
    set x | x in q
  }

  function Jaccard(a: set<string>, b: set<string>): real {
    if |a + b| == 0 then 0.0 else |a * b| as real / |a + b| as real
  }

  function Score(a: Row, b: Row): real {
    Jaccard(Elems(Words(a)), Elems(Words(b)))
  }

  predicate Similar(a: Row, b: Row) {
    && Words(a) != [] && Words(b) != [] && Words(a)[0] == Words(b)[0]
    && Score(a, b) >= 0.85
  }

  /** No other row shares the row's key. */
  predicate Alone(rows: set<Row>, r: Row) {
    r in rows && r.key.Some? && Group(rows, r.key.value) == {r}
  }

  function PairMerge(a: Row, b: Row): Merge {
    Merge(One, Score(a, b), {a, b})
  }

  ghost predicate WantedGroup(rows: set<Row>, m: Merge) {
    |m.group| >= 2 && m.tier == Zero && m.score == 1.0 && exists key :: m.group == Group(rows, key)
  }

  ghost predicate WantedPair(singles: set<Row>, m: Merge) {
    exists a, b :: a in singles && b in singles && a != b && Similar(a, b) && m == PairMerge(a, b)
  }

  ghost function Singles(rows: set<Row>): set<Row> {
    set r | r in rows && Alone(rows, r)
  }

  /** The merges to propose for a set of rows: a matter of the set alone. */
  ghost predicate Wanted(rows: set<Row>, m: Merge) {
    WantedGroup(rows, m) || WantedPair(Singles(rows), m)
  }

  // ------------------------------------------------- what a suggestion says

  predicate Outranks(r: Row, x: Row) {
    |x.books| < |r.books| || (|x.books| == |r.books| && r.id <= x.id)
  }

  /** Most books, then the lowest id. */
  predicate IsBest(r: Row, group: set<Row>) {
    r in group && forall x :: x in group ==> Outranks(r, x)
  }

  lemma {:induction false} BestExists(group: set<Row>) returns (r: Row)
    requires group != {}
    ensures IsBest(r, group)
  {
    r :| r in group;
    var rest := group - {r};
    if rest != {} {
      var y := BestExists(rest);
      r := if Outranks(r, y) then r else y;
    }
    forall z | z in group ensures Outranks(r, z) {
      assert z in rest || z !in rest;
    }
  }

  ghost function Best(group: set<Row>): (r: Row)
    requires group != {}
    ensures IsBest(r, group)
  {
    assert exists r :: IsBest(r, group) by { var r := BestExists(group); }
    var r :| IsBest(r, group);
    r
  }

  lemma BestIsUnique(group: set<Row>, r: Row)
    requires IdsDistinct(group) && IsBest(r, group)
    ensures r == Best(group)
  {
    assert Outranks(r, Best(group)) && Outranks(Best(group), r);
  }

  predicate Increasing(q: seq<Row>) {
    forall i, j :: 0 <= i < j < |q| ==> q[i].id < q[j].id
  }

  function InsertById(r: Row, q: seq<Row>): seq<Row> {
    if q == [] || r.id <= q[0].id then [r] + q else [q[0]] + InsertById(r, q[1..])
  }

  /** `sort_by_key(|r| r.id)`. */
  function SortById(q: seq<Row>): seq<Row> {
    if q == [] then [] else InsertById(q[0], SortById(q[1..]))
  }

  function Ids(q: seq<Row>): seq<int> {
    if q == [] then [] else [q[0].id] + Ids(q[1..])
  }

  function Names(q: seq<Row>): seq<string> {
    if q == [] then [] else [q[0].name] + Names(q[1..])
  }

  function Books(group: set<Row>): set<int> {
    set r, b | r in group && b in r.books :: b
  }

  lemma {:induction false} LeastExists(group: set<Row>) returns (r: Row)
    requires group != {}
    ensures r in group && forall x :: x in group ==> r.id <= x.id
  {
    r :| r in group;
    var rest := group - {r};
    if rest != {} {
      var y := LeastExists(rest);
      r := if r.id <= y.id then r else y;
    }
    forall z | z in group ensures r.id <= z.id {
      assert z in rest || z !in rest;
    }
  }

  ghost function Least(group: set<Row>): (r: Row)
    requires group != {}
    ensures r in group && forall x :: x in group ==> r.id <= x.id
  {
    assert exists r :: r in group && forall x :: x in group ==> r.id <= x.id by { var r := LeastExists(group); }
    var r :| r in group && forall x :: x in group ==> r.id <= x.id;
    r
  }

  /** The rows of a set in the order of their ids. */
  ghost function InOrder(group: set<Row>): seq<Row> {
    if group == {} then [] else [Least(group)] + InOrder(group - {Least(group)})
  }

  /** The suggestion for a merge, said of the group as a set. */
  ghost function Suggest(m: Merge): Suggestion
    requires m.group != {}
  {
    var canonical := Best(m.group);
    var sources := InOrder(m.group - {canonical});
    Suggestion(m.tier, m.score, canonical.name,
               if |m.group| == 2 && sources != [] then Some(sources[0].name) else None,
               |Books(m.group)|, Ids(sources), Names(sources), canonical.id, canonical.name)
  }

  // ------------------------------------------------------- sorting by id

  lemma {:induction false} InOrderElems(group: set<Row>)
    ensures Elems(InOrder(group)) == group
  {
    if group != {} {
      var rest := group - {Least(group)};
      InOrderElems(rest);
      ElemsCons(Least(group), InOrder(rest));
    }
  }

  lemma ElemsCons<T>(x: T, q: seq<T>)
    ensures Elems([x] + q) == {x} + Elems(q)
  {
    forall y ensures y in [x] + q <==> y == x || y in q {
      if y in q {
        var i :| 0 <= i < |q| && q[i] == y;
        assert ([x] + q)[i + 1] == y;
      }
      if y == x { assert ([x] + q)[0] == y; }
    }
  }

  lemma ElemsSnoc<T>(q: seq<T>, x: T)
    ensures Elems(q + [x]) == Elems(q) + {x}
  {}

  lemma HeadIsLeast(q: seq<Row>)
    requires Increasing(q) && q != []
    ensures Elems(q) != {} && Least(Elems(q)) == q[0] && Elems(q) - {q[0]} == Elems(q[1..])
  {
    assert q == [q[0]] + q[1..];
    ElemsCons(q[0], q[1..]);
    forall x | x in q[1..] ensures x.id > q[0].id {
      var i :| 0 <= i < |q[1..]| && q[1..][i] == x;
      assert q[i + 1] == x;
    }
    assert q[0] in Elems(q);
  }

  /** A list with strictly rising ids is the one order of its rows. */
  lemma {:induction false} IncreasingIsInOrder(q: seq<Row>)
    requires Increasing(q)
    ensures q == InOrder(Elems(q))
  {
    if q != [] {
      HeadIsLeast(q);
      IncreasingIsInOrder(q[1..]);
      assert q == [q[0]] + q[1..] && q[0] in Elems(q);
    }
  }

  predicate NoRepeats<T(==)>(q: seq<T>) {
    forall i, j :: 0 <= i < j < |q| ==> q[i] != q[j]
  }

  lemma {:induction false} InsertSorted(r: Row, q: seq<Row>)
    requires Increasing(q) && forall x :: x in q ==> x.id != r.id
    ensures Increasing(InsertById(r, q)) && Elems(InsertById(r, q)) == {r} + Elems(q)
  {
    if q == [] || r.id <= q[0].id {
      ElemsCons(r, q);
    } else {
      assert q == [q[0]] + q[1..];
      InsertSorted(r, q[1..]);
      ElemsCons(q[0], q[1..]);
      ElemsCons(q[0], InsertById(r, q[1..]));
      var t := InsertById(r, q[1..]);
      forall i | 0 <= i < |t| ensures q[0].id < t[i].id {
        assert t[i] in Elems(t);
        if t[i] != r {
          assert t[i] in q[1..];
        }
      }
    }
  }

  lemma {:induction false} SortGivesOrder(q: seq<Row>)
    requires IdsDistinct(Elems(q)) && NoRepeats(q)
    ensures Increasing(SortById(q)) && Elems(SortById(q)) == Elems(q)
  {
    if q != [] {
      var rest := q[1..];
      assert q == [q[0]] + rest;
      ElemsCons(q[0], rest);
      SortGivesOrder(rest);
      forall x | x in SortById(rest) ensures x.id != q[0].id {
        assert x in Elems(SortById(rest));
        assert x in rest && q[0] in q;
        var i :| 0 <= i < |rest| && rest[i] == x;
        assert q[i + 1] == x;
      }
      InsertSorted(q[0], SortById(rest));
    }
  }

  // ------------------------------------------------------------ the program

  /** `pick_canonical`. */
  method PickCanonical(group: seq<Row>) returns (best: Option<Row>)
    ensures if group == [] then best == None else best.Some? && IsBest(best.value, Elems(group))
  {
    if group == [] {
      return None;
    }
    var b := group[0];
    for i := 1 to |group|
      invariant b in group && forall j :: 0 <= j < i ==> Outranks(b, group[j])
    {
      var row := group[i];
      if |row.books| > |b.books| || (|row.books| == |b.books| && row.id < b.id) {
        b := row;
      }
    }
    best := Some(b);
  }

  /** `merge_suggestion`. */
  method MergeSuggestion(tier: Tier, score: real, group: seq<Row>, canonical: Row) returns (s: Suggestion)
    requires NoRepeats(group) && IdsDistinct(Elems(group)) && IsBest(canonical, Elems(group))
    ensures s == Suggest(Merge(tier, score, Elems(group)))
  {
    var sources: seq<Row> := [];
    var books: set<int> := {};
    for i := 0 to |group|
      invariant Elems(sources) == Elems(group[..i]) - {canonical} && NoRepeats(sources)
      invariant books == Books(Elems(group[..i]))
    {
      FilterStep(group, i, sources, canonical);
      BooksStep(group, i);
      if group[i].id != canonical.id {
        sources := sources + [group[i]];
      }
      books := books + group[i].books;
    }
    assert group[..|group|] == group;
    BestIsUnique(Elems(group), canonical);
    SortGivesOrder(sources);
    IncreasingIsInOrder(SortById(sources));
    NoRepeatsSize(group);
    sources := SortById(sources);
    SizeTwo(Elems(group), canonical, sources);
    var names := Names(sources);
    s := Suggestion(tier, score, canonical.name, if |group| == 2 && names != [] then Some(names[0]) else None,
                    |books|, Ids(sources), names, canonical.id, canonical.name);
  }

  lemma FilterStep(group: seq<Row>, i: nat, sources: seq<Row>, canonical: Row)
    requires i < |group| && NoRepeats(group) && IdsDistinct(Elems(group)) && canonical in group
    requires Elems(sources) == Elems(group[..i]) - {canonical} && NoRepeats(sources)
    ensures var next := if group[i].id != canonical.id then sources + [group[i]] else sources;
            Elems(next) == Elems(group[..i + 1]) - {canonical} && NoRepeats(next)
  {
    assert group[..i + 1] == group[..i] + [group[i]];
    ElemsSnoc(group[..i], group[i]);
    ElemsSnoc(sources, group[i]);
    assert group[i] !in group[..i];
    assert group[i] !in Elems(sources);
    assert group[i] in Elems(group) && canonical in Elems(group);
  }

  lemma BooksStep(group: seq<Row>, i: nat)
    requires i < |group|
    ensures Books(Elems(group[..i + 1])) == Books(Elems(group[..i])) + group[i].books
  {
    assert group[..i + 1] == group[..i] + [group[i]];
    ElemsSnoc(group[..i], group[i]);
    BooksWith(Elems(group[..i]), group[i]);
  }

  lemma BooksWith(group: set<Row>, r: Row)
    ensures Books(group + {r}) == Books(group) + r.books
  {
    forall b | b in Books(group) + r.books ensures b in Books(group + {r}) {
      if b in r.books {
        assert r in group + {r};
      } else {
        var x :| x in group && b in x.books;
        assert x in group + {r};
      }
    }
  }

  lemma SizeTwo(group: set<Row>, canonical: Row, sources: seq<Row>)
    requires canonical in group && Elems(sources) == group - {canonical}
    ensures (sources != [] ==> Names(sources) != [] && Names(sources)[0] == sources[0].name)
    ensures sources == [] ==> Names(sources) == []
  {}

  lemma {:induction false} NoRepeatsSize<T>(q: seq<T>)
    requires NoRepeats(q)
    ensures |Elems(q)| == |q|
  {
    if q != [] {
      var init, x := q[..|q| - 1], q[|q| - 1];
      NoRepeatsSize(init);
      ElemsSnoc(init, x);
      assert q == init + [x];
      assert x !in init;
    }
  }

  /** A suggestion list and the merges it makes, in step; `plan` lists exactly the merges `wanted`. */
  ghost predicate Carries(out: seq<Suggestion>, plan: seq<Merge>) {
    && |out| == |plan| && NoRepeats(plan)
    && forall i :: 0 <= i < |plan| ==> plan[i].group != {} && out[i] == Suggest(plan[i])
  }

  lemma CarriesBoth(out: seq<Suggestion>, plan: seq<Merge>, out': seq<Suggestion>, plan': seq<Merge>)
    requires Carries(out, plan) && Carries(out', plan')
    requires forall m :: m in plan ==> m !in plan'
    ensures Carries(out + out', plan + plan')
  {
    var all := plan + plan';
    forall i, j | 0 <= i < j < |all| ensures all[i] != all[j] {
      if i < |plan| <= j {
        assert plan[i] in plan && plan'[j - |plan|] in plan';
      }
    }
  }

  // ------------------------------------------------ a suggestion is its group

  lemma {:induction false} SameIdsSameRows(rows: set<Row>, p: seq<Row>, q: seq<Row>)
    requires IdsDistinct(rows) && Elems(p) <= rows && Elems(q) <= rows && Ids(p) == Ids(q)
    ensures p == q
  {
    if p != [] && q != [] {
      assert Ids(p)[1..] == Ids(p[1..]) && Ids(q)[1..] == Ids(q[1..]);
      assert Ids(p)[0] == Ids(q)[0];
      assert p[0] in Elems(p) && q[0] in Elems(q);
      assert p == [p[0]] + p[1..] && q == [q[0]] + q[1..];
      SameIdsSameRows(rows, p[1..], q[1..]);
    }
  }

  /** No two different groups make one suggestion. */
  lemma SuggestionNamesGroup(rows: set<Row>, m: Merge, n: Merge)
    requires IdsDistinct(rows) && m.group <= rows && n.group <= rows && m.group != {} && n.group != {}
    requires Suggest(m) == Suggest(n)
    ensures m == n
  {
    var a, b := Best(m.group), Best(n.group);
    InOrderElems(m.group - {a});
    InOrderElems(n.group - {b});
    SameIdsSameRows(rows, InOrder(m.group - {a}), InOrder(n.group - {b}));
    assert m.group == (m.group - {a}) + {a} && n.group == (n.group - {b}) + {b};
  }

  /** Then a list in step with its plan repeats nothing, and says a suggestion exactly when the plan holds its merge. */
  lemma PlanSaid(rows: set<Row>, out: seq<Suggestion>, plan: seq<Merge>)
    requires IdsDistinct(rows) && Carries(out, plan) && forall m :: m in plan ==> m.group <= rows
    ensures NoRepeats(out)
    ensures forall s :: s in out <==> exists m :: m in plan && m.group != {} && s == Suggest(m)
  {
    forall i, j | 0 <= i < j < |out| ensures out[i] != out[j] {
      assert plan[i] in plan && plan[j] in plan;
      if out[i] == out[j] {
        SuggestionNamesGroup(rows, plan[i], plan[j]);
      }
    }
    forall s | s in out ensures exists m :: m in plan && m.group != {} && s == Suggest(m) {
      var i :| 0 <= i < |out| && out[i] == s;
      assert plan[i] in plan;
    }
    forall m | m in plan && m.group != {} ensures Suggest(m) in out {
      var i :| 0 <= i < |plan| && plan[i] == m;
      assert out[i] == Suggest(m);
    }
  }

  // ------------------------------------------------------------ fuzzy pairs

  /** A single with its token set, as its first-token bucket holds it. */
  datatype Candidate = Candidate(tokens: set<string>, row: Row)

  predicate GoodBucket(bucket: seq<Candidate>) {
    && (forall i :: 0 <= i < |bucket| ==> bucket[i].tokens == Elems(Words(bucket[i].row)) && Words(bucket[i].row) != [])
    && (forall i, j :: 0 <= i < j < |bucket| ==>
          bucket[i].row.id != bucket[j].row.id && Words(bucket[i].row)[0] == Words(bucket[j].row)[0])
  }

  predicate PairAt(bucket: seq<Candidate>, x: nat, y: nat, m: Merge) {
    x < y < |bucket| && Similar(bucket[x].row, bucket[y].row) && m == PairMerge(bucket[x].row, bucket[y].row)
  }

  lemma PairAtOnce(bucket: seq<Candidate>, x: nat, y: nat, x': nat, y': nat, m: Merge)
    requires GoodBucket(bucket) && PairAt(bucket, x, y, m) && PairAt(bucket, x', y', m)
    ensures x == x' && y == y'
  {
    assert bucket[x].row in m.group && bucket[y].row in m.group;
  }

  /** The pairs of candidate `x` with those before `y`. */
  ghost predicate FoundBefore(bucket: seq<Candidate>, x: nat, y: nat, m: Merge) {
    exists y': nat :: y' < y && PairAt(bucket, x, y', m)
  }

  lemma OtherPair(a: Row, b: Row, c: Row)
    requires a.id != b.id
    ensures b.id != c.id ==> PairMerge(a, b) != PairMerge(a, c)
  {
    assert b in PairMerge(a, b).group;
  }

  lemma FoundStep(bucket: seq<Candidate>, x: nat, y: nat)
    requires GoodBucket(bucket) && x < y < |bucket|
    ensures var m := PairMerge(bucket[x].row, bucket[y].row);
            && !FoundBefore(bucket, x, y, m)
            && forall m' :: FoundBefore(bucket, x, y + 1, m')
                 <==> FoundBefore(bucket, x, y, m') || (m' == m && Similar(bucket[x].row, bucket[y].row))
  {
    var a, b := bucket[x].row, bucket[y].row;
    var m := PairMerge(a, b);
    forall y': nat | y' < y ensures m != PairMerge(a, bucket[y'].row) {
      OtherPair(a, b, bucket[y'].row);
    }
    if Similar(a, b) {
      assert PairAt(bucket, x, y, m);
    }
  }

  /** The inner loop of `fuzzy_merge_suggestions`. */
  method PairsFrom(bucket: seq<Candidate>, x: nat) returns (out: seq<Suggestion>, ghost plan: seq<Merge>)
    requires GoodBucket(bucket) && x < |bucket|
    ensures Carries(out, plan)
    ensures forall m :: m in plan <==> exists y :: PairAt(bucket, x, y, m)
  {
    out, plan := [], [];
    for y := x + 1 to |bucket|
      invariant Carries(out, plan)
      invariant forall m :: m in plan <==> FoundBefore(bucket, x, y, m)
    {
      var a, b := bucket[x], bucket[y];
      FoundStep(bucket, x, y);
      var score := Jaccard(a.tokens, b.tokens);
      if score >= 0.85 {
        var s := SuggestPair(a.row, b.row);
        CarriesBoth(out, plan, [s], [PairMerge(a.row, b.row)]);
        out, plan := out + [s], plan + [PairMerge(a.row, b.row)];
      }
    }
  }

  lemma PairElems(a: Row, b: Row)
    requires a.id != b.id
    ensures Elems([a, b]) == {a, b} && IdsDistinct({a, b}) && NoRepeats([a, b])
  {}

  /** `pick_canonical` and `merge_suggestion` of one pair. */
  method SuggestPair(a: Row, b: Row) returns (s: Suggestion)
    requires a.id != b.id
    ensures s == Suggest(PairMerge(a, b))
  {
    var pair := [a, b];
    PairElems(a, b);
    var canonical := PickCanonical(pair);
    s := MergeSuggestion(One, Score(a, b), pair, canonical.value);
  }

  method PairsIn(bucket: seq<Candidate>) returns (out: seq<Suggestion>, ghost plan: seq<Merge>)
    requires GoodBucket(bucket)
    ensures Carries(out, plan)
    ensures forall m :: m in plan <==> exists x, y :: PairAt(bucket, x, y, m)
  {
    out, plan := [], [];
    for x := 0 to |bucket|
      invariant Carries(out, plan)
      invariant forall m :: m in plan <==> exists x': nat, y: nat :: x' < x && PairAt(bucket, x', y, m)
    {
      var more, pairs := PairsFrom(bucket, x);
      forall m | m in plan ensures m !in pairs {
        if m in pairs {
          var x': nat, y': nat :| x' < x && PairAt(bucket, x', y', m);
          var y :| PairAt(bucket, x, y, m);
          PairAtOnce(bucket, x, y, x', y', m);
        }
      }
      CarriesBoth(out, plan, more, pairs);
      out, plan := out + more, plan + pairs;
    }
  }

  ghost predicate InBucket(bucket: seq<Candidate>, m: Merge) {
    exists x: nat, y: nat :: PairAt(bucket, x, y, m)
  }

  predicate HasRow(bucket: seq<Candidate>, r: Row) {
    exists i :: 0 <= i < |bucket| && bucket[i].row == r
  }

  predicate BucketOf(bucket: seq<Candidate>, first: string, seen: set<Row>) {
    GoodBucket(bucket) && forall i :: 0 <= i < |bucket| ==> Words(bucket[i].row)[0] == first && bucket[i].row in seen
  }

  /** The rows seen so far, each in the bucket of its first word. */
  predicate Bucketed(buckets: map<string, seq<Candidate>>, seen: set<Row>) {
    && (forall f :: f in buckets ==> BucketOf(buckets[f], f, seen))
    && (forall r :: r in seen && Words(r) != [] ==> Words(r)[0] in buckets && HasRow(buckets[Words(r)[0]], r))
  }

  predicate GoodSingles(singles: seq<(string, Row)>) {
    && (forall i :: 0 <= i < |singles| ==> singles[i].1.key == Some(singles[i].0))
    && (forall i, j :: 0 <= i < j < |singles| ==> singles[i].1.id != singles[j].1.id)
  }

  function Rows(singles: seq<(string, Row)>): set<Row> {
    set p | p in singles :: p.1
  }

  function Pushed(buckets: map<string, seq<Candidate>>, r: Row): map<string, seq<Candidate>>
    requires Words(r) != []
  {
    var first := Words(r)[0];
    buckets[first := (if first in buckets then buckets[first] else []) + [Candidate(Elems(Words(r)), r)]]
  }

  lemma BucketGrows(bucket: seq<Candidate>, first: string, seen: set<Row>, r: Row)
    requires BucketOf(bucket, first, seen) && Words(r) != [] && Words(r)[0] == first
    requires forall x :: x in seen ==> x.id != r.id
    ensures BucketOf(bucket + [Candidate(Elems(Words(r)), r)], first, seen + {r})
    ensures HasRow(bucket + [Candidate(Elems(Words(r)), r)], r)
    ensures forall x :: HasRow(bucket, x) ==> HasRow(bucket + [Candidate(Elems(Words(r)), r)], x)
  {
    var grown := bucket + [Candidate(Elems(Words(r)), r)];
    assert grown[|bucket|].row == r;
    forall x | HasRow(bucket, x) ensures HasRow(grown, x) {
      var i :| 0 <= i < |bucket| && bucket[i].row == x;
      assert grown[i].row == x;
    }
  }

  lemma PushedBucketed(buckets: map<string, seq<Candidate>>, seen: set<Row>, r: Row)
    requires Bucketed(buckets, seen) && Words(r) != [] && forall x :: x in seen ==> x.id != r.id
    ensures Bucketed(Pushed(buckets, r), seen + {r})
  {
    var first := Words(r)[0];
    BucketGrows(if first in buckets then buckets[first] else [], first, seen, r);
  }

  lemma RowsSnoc(singles: seq<(string, Row)>, i: nat)
    requires i < |singles| && GoodSingles(singles)
    ensures Rows(singles[..i + 1]) == Rows(singles[..i]) + {singles[i].1}
    ensures forall x :: x in Rows(singles[..i]) ==> x.id != singles[i].1.id
  {
    assert singles[..i + 1] == singles[..i] + [singles[i]];
    assert singles[i] in singles[..i + 1];
    forall x | x in Rows(singles[..i + 1]) ensures x in Rows(singles[..i]) + {singles[i].1} {
      var p :| p in singles[..i + 1] && p.1 == x;
    }
    forall x | x in Rows(singles[..i]) ensures x.id != singles[i].1.id && x in Rows(singles[..i + 1]) {
      var p :| p in singles[..i] && p.1 == x;
      var j :| 0 <= j < i && singles[j] == p;
      assert singles[..i + 1][j] == p;
    }
  }

  /** The buckets of `fuzzy_merge_suggestions`. */
  method FirstTokenBuckets(singles: seq<(string, Row)>) returns (buckets: map<string, seq<Candidate>>)
    requires GoodSingles(singles)
    ensures Bucketed(buckets, Rows(singles))
  {
    buckets := map[];
    for i := 0 to |singles|
      invariant Bucketed(buckets, Rows(singles[..i]))
    {
      var (key, row) := singles[i];
      RowsSnoc(singles, i);
      var words := Split(key);
      if words == [] {
        continue;
      }
      PushedBucketed(buckets, Rows(singles[..i]), row);
      var first := words[0];
      var bucket := if first in buckets then buckets[first] else [];
      buckets := buckets[first := bucket + [Candidate(Elems(words), row)]];
    }
    assert singles[..|singles|] == singles;
  }

  lemma PairSymmetric(a: Row, b: Row)
    ensures Score(a, b) == Score(b, a) && PairMerge(a, b) == PairMerge(b, a)
    ensures Similar(a, b) == Similar(b, a)
  {
    var x, y := Elems(Words(a)), Elems(Words(b));
    assert x + y == y + x && x * y == y * x && {a, b} == {b, a};
  }

  lemma BucketedIsWanted(bucket: seq<Candidate>, first: string, rows: set<Row>, m: Merge)
    requires BucketOf(bucket, first, rows) && InBucket(bucket, m)
    ensures WantedPair(rows, m)
  {
    var x: nat, y: nat :| PairAt(bucket, x, y, m);
    assert bucket[x].row in rows && bucket[y].row in rows;
  }

  lemma BothInBucket(bucket: seq<Candidate>, a: Row, b: Row)
    requires HasRow(bucket, a) && HasRow(bucket, b) && a != b && Similar(a, b)
    ensures InBucket(bucket, PairMerge(a, b))
  {
    var x: nat :| x < |bucket| && bucket[x].row == a;
    var y: nat :| y < |bucket| && bucket[y].row == b;
    PairSymmetric(a, b);
    assert PairAt(bucket, x, y, PairMerge(a, b)) || PairAt(bucket, y, x, PairMerge(a, b));
  }

  /** The pairs found in the buckets are the pairs wanted. */
  lemma BucketsHoldPairs(buckets: map<string, seq<Candidate>>, rows: set<Row>, m: Merge)
    requires Bucketed(buckets, rows)
    ensures (exists f :: f in buckets && InBucket(buckets[f], m)) <==> WantedPair(rows, m)
  {
    if f :| f in buckets && InBucket(buckets[f], m) {
      BucketedIsWanted(buckets[f], f, rows, m);
    }
    if WantedPair(rows, m) {
      var a, b :| a in rows && b in rows && a != b && Similar(a, b) && m == PairMerge(a, b);
      BothInBucket(buckets[Words(a)[0]], a, b);
    }
  }

  lemma OneBucketOnly(buckets: map<string, seq<Candidate>>, rows: set<Row>, f: string, g: string, m: Merge)
    requires Bucketed(buckets, rows) && f in buckets && g in buckets
    ensures InBucket(buckets[f], m) && InBucket(buckets[g], m) ==> f == g
  {
    if InBucket(buckets[f], m) && InBucket(buckets[g], m) {
      SameFirstWord(buckets[f], buckets[g], f, g, rows, m);
    }
  }

  lemma SameFirstWord(p: seq<Candidate>, q: seq<Candidate>, f: string, g: string, rows: set<Row>, m: Merge)
    requires BucketOf(p, f, rows) && BucketOf(q, g, rows) && InBucket(p, m) && InBucket(q, m)
    ensures f == g
  {
    var x: nat, y: nat :| PairAt(p, x, y, m);
    var z: nat, w: nat :| PairAt(q, z, w, m);
    assert p[x].row in m.group;
  }

  /** A suggestion to merge two similar rows. */
  ghost predicate SaysPair(rows: set<Row>, s: Suggestion) {
    exists m :: WantedPair(rows, m) && m.group != {} && s == Suggest(m)
  }

  /** `fuzzy_merge_suggestions`; the buckets come out of the hash map in any order. */
  method FuzzyMergeSuggestions(singles: seq<(string, Row)>) returns (out: seq<Suggestion>, ghost plan: seq<Merge>)
    requires GoodSingles(singles)
    ensures Carries(out, plan)
    ensures forall m :: m in plan <==> WantedPair(Rows(singles), m)
    ensures NoRepeats(out) && forall s :: s in out <==> SaysPair(Rows(singles), s)
  {
    var buckets := FirstTokenBuckets(singles);
    var todo := buckets.Keys;
    out, plan := [], [];
    while todo != {}
      invariant todo <= buckets.Keys
      invariant Carries(out, plan)
      invariant forall m :: m in plan <==> exists f :: f in buckets.Keys - todo && InBucket(buckets[f], m)
    {
      var first :| first in todo;
      assert BucketOf(buckets[first], first, Rows(singles));
      var more, pairs := PairsIn(buckets[first]);
      forall m | m in plan ensures m !in pairs {
        if m in pairs {
          var f :| f in buckets.Keys - todo && InBucket(buckets[f], m);
          OneBucketOnly(buckets, Rows(singles), f, first, m);
        }
      }
      CarriesBoth(out, plan, more, pairs);
      out, plan := out + more, plan + pairs;
      todo := todo - {first};
    }
    forall m ensures m in plan <==> WantedPair(Rows(singles), m) {
      BucketsHoldPairs(buckets, Rows(singles), m);
    }
    RowsDistinct(singles);
    PlanSaid(Rows(singles), out, plan);
  }

  lemma RowsDistinct(singles: seq<(string, Row)>)
    requires GoodSingles(singles)
    ensures IdsDistinct(Rows(singles))
  {}

  // --------------------------------------------------------- exact groups

  function GroupMerge(group: set<Row>): Merge {
    Merge(Zero, 1.0, group)
  }

  /** The rows seen so far, each in the bucket of its key. */
  predicate Grouped(buckets: map<string, seq<Row>>, seen: set<Row>) {
    && (forall k :: k in buckets ==> buckets[k] != [] && NoRepeats(buckets[k]) && Elems(buckets[k]) == Group(seen, k))
    && (forall r :: r in seen && r.key.Some? ==> r.key.value in buckets)
  }

  lemma GroupedStep(buckets: map<string, seq<Row>>, seen: set<Row>, r: Row)
    requires Grouped(buckets, seen) && r !in seen
    ensures r.key.None? ==> Grouped(buckets, seen + {r})
    ensures r.key.Some? ==>
              var k := r.key.value;
              Grouped(buckets[k := (if k in buckets then buckets[k] else []) + [r]], seen + {r})
  {
    forall k | r.key != Some(k) ensures Group(seen + {r}, k) == Group(seen, k) {}
    if r.key.Some? {
      var k := r.key.value;
      var was: seq<Row> := if k in buckets then buckets[k] else [];
      assert Group(seen + {r}, k) == Group(seen, k) + {r};
      assert k !in buckets ==> Group(seen, k) == {};
      ElemsSnoc(was, r);
      assert r !in Elems(was);
    }
  }

  /** The buckets of `detect_merges`. */
  method KeyBuckets(rows: seq<Row>) returns (buckets: map<string, seq<Row>>)
    requires NoRepeats(rows)
    ensures Grouped(buckets, Elems(rows))
  {
    buckets := map[];
    for i := 0 to |rows|
      invariant Grouped(buckets, Elems(rows[..i]))
    {
      var row := rows[i];
      assert rows[..i + 1] == rows[..i] + [row];
      ElemsSnoc(rows[..i], row);
      GroupedStep(buckets, Elems(rows[..i]), row);
      if row.key.Some? {
        var key := row.key.value;
        var group := if key in buckets then buckets[key] else [];
        buckets := buckets[key := group + [row]];
      }
    }
    assert rows[..|rows|] == rows;
  }

  // ------------------------------------------------------------- detection

  /** A wanted group found under one of the keys done. */
  ghost predicate GroupDone(rows: set<Row>, done: set<string>, m: Merge) {
    exists k :: k in done && |Group(rows, k)| >= 2 && m == GroupMerge(Group(rows, k))
  }

  /** The rows left alone under the keys done. */
  ghost predicate SinglesDone(rows: set<Row>, done: set<string>, singles: seq<(string, Row)>) {
    && GoodSingles(singles)
    && forall r :: r in Rows(singles) <==> Alone(rows, r) && r.key.value in done
  }

  lemma GroupKeys(rows: set<Row>, k: string, l: string)
    requires Group(rows, k) != {}
    ensures Group(rows, k) == Group(rows, l) ==> k == l
  {
    var r :| r in Group(rows, k);
  }

  lemma SingleAdded(rows: set<Row>, done: set<string>, singles: seq<(string, Row)>, k: string, r: Row)
    requires IdsDistinct(rows) && SinglesDone(rows, done, singles) && k !in done && Group(rows, k) == {r}
    ensures SinglesDone(rows, done + {k}, singles + [(k, r)])
  {
    assert r in Group(rows, k);
    var grown := singles + [(k, r)];
    forall i | 0 <= i < |singles| ensures singles[i].1.id != r.id {
      assert singles[i].1 in Rows(singles);
    }
    forall x ensures x in Rows(grown) <==> x in Rows(singles) || x == r {
      if x in Rows(singles) {
        var p :| p in singles && p.1 == x;
        assert p in grown;
      }
      if x == r { assert (k, r) in grown; }
    }
  }

  lemma NoSingleAdded(rows: set<Row>, done: set<string>, singles: seq<(string, Row)>, k: string)
    requires SinglesDone(rows, done, singles) && |Group(rows, k)| != 1
    ensures SinglesDone(rows, done + {k}, singles)
  {
    forall r ensures r in Rows(singles) <==> Alone(rows, r) && r.key.value in done + {k} {
      assert Alone(rows, r) ==> |Group(rows, r.key.value)| == 1;
    }
  }

  lemma GroupIds(rows: set<Row>, group: set<Row>)
    requires IdsDistinct(rows) && group <= rows
    ensures IdsDistinct(group)
  {}

  /** The key loop of `detect_merges`; the buckets come out of the hash map in any order. */
  method GroupsAndSingles(buckets: map<string, seq<Row>>, ghost rows: set<Row>)
    returns (out: seq<Suggestion>, singles: seq<(string, Row)>, ghost plan: seq<Merge>)
    requires IdsDistinct(rows) && Grouped(buckets, rows)
    ensures Carries(out, plan) && SinglesDone(rows, buckets.Keys, singles)
    ensures forall m :: m in plan <==> GroupDone(rows, buckets.Keys, m)
  {
    out, singles, plan := [], [], [];
    var todo := buckets.Keys;
    assert buckets.Keys - todo == {};
    while todo != {}
      invariant todo <= buckets.Keys
      invariant Carries(out, plan) && SinglesDone(rows, buckets.Keys - todo, singles)
      invariant forall m :: m in plan <==> GroupDone(rows, buckets.Keys - todo, m)
    {
      var key :| key in todo;
      var group := buckets[key];
      ghost var done := buckets.Keys - todo;
      assert buckets.Keys - (todo - {key}) == done + {key};
      NoRepeatsSize(group);
      if |group| >= 2 {
        GroupIds(rows, Elems(group));
        var canonical := PickCanonical(group);
        var s := MergeSuggestion(Zero, 1.0, group, canonical.value);
        NoSingleAdded(rows, done, singles, key);
        GroupAdded(rows, done, plan, key);
        CarriesBoth(out, plan, [s], [GroupMerge(Elems(group))]);
        out, plan := out + [s], plan + [GroupMerge(Elems(group))];
      } else {
        assert group == [group[0]];
        SingleAdded(rows, done, singles, key, group[0]);
        SmallGroup(rows, done, key);
        singles := singles + [(key, group[0])];
      }
      todo := todo - {key};
    }
    assert buckets.Keys - todo == buckets.Keys;
  }

  lemma GroupAdded(rows: set<Row>, done: set<string>, plan: seq<Merge>, k: string)
    requires k !in done && |Group(rows, k)| >= 2 && forall m :: m in plan <==> GroupDone(rows, done, m)
    ensures GroupMerge(Group(rows, k)) !in plan
    ensures forall m :: m in plan + [GroupMerge(Group(rows, k))] <==> GroupDone(rows, done + {k}, m)
  {
    var here := GroupMerge(Group(rows, k));
    forall l | l in done ensures Group(rows, l) != Group(rows, k) {
      GroupKeys(rows, k, l);
    }
    assert k in done + {k};
    assert GroupDone(rows, done + {k}, here);
  }

  lemma SmallGroup(rows: set<Row>, done: set<string>, k: string)
    requires |Group(rows, k)| < 2
    ensures forall m :: GroupDone(rows, done, m) <==> GroupDone(rows, done + {k}, m)
  {}

  /** Every suggestion a set of rows calls for, each once. */
  ghost predicate Answers(rows: set<Row>, out: seq<Suggestion>) {
    NoRepeats(out) && forall s :: s in out <==> Called(rows, s)
  }

  ghost predicate Called(rows: set<Row>, s: Suggestion) {
    exists m :: Wanted(rows, m) && m.group != {} && s == Suggest(m)
  }

  /** `detect_merges`, from the fetched rows on. */
  method DetectMerges(rows: seq<Row>) returns (out: seq<Suggestion>)
    requires NoRepeats(rows) && IdsDistinct(Elems(rows))
    ensures Answers(Elems(rows), out)
  {
    var buckets := KeyBuckets(rows);
    var exact, singles, groups := GroupsAndSingles(buckets, Elems(rows));
    var fuzzy, pairs := FuzzyMergeSuggestions(singles);
    SinglesAreAll(Elems(rows), buckets, singles);
    CarriesBoth(exact, groups, fuzzy, pairs);
    PlanIsWanted(Elems(rows), buckets, groups, pairs);
    out := exact + fuzzy;
    PlanAnswers(Elems(rows), out, groups + pairs);
  }

  lemma SinglesAreAll(rows: set<Row>, buckets: map<string, seq<Row>>, singles: seq<(string, Row)>)
    requires Grouped(buckets, rows) && SinglesDone(rows, buckets.Keys, singles)
    ensures Rows(singles) == Singles(rows)
  {}

  lemma PlanIsWanted(rows: set<Row>, buckets: map<string, seq<Row>>, groups: seq<Merge>, pairs: seq<Merge>)
    requires Grouped(buckets, rows)
    requires forall m :: m in groups <==> GroupDone(rows, buckets.Keys, m)
    requires forall m :: m in pairs <==> WantedPair(Singles(rows), m)
    ensures forall m :: m in groups + pairs <==> Wanted(rows, m)
  {
    forall m ensures GroupDone(rows, buckets.Keys, m) <==> WantedGroup(rows, m) {
      if WantedGroup(rows, m) {
        var k :| m.group == Group(rows, k);
        var r :| r in m.group;
        assert k in buckets;
      }
    }
  }

  lemma WantedWithin(rows: set<Row>, m: Merge)
    requires Wanted(rows, m)
    ensures m.group <= rows && m.group != {}
  {
    if WantedPair(Singles(rows), m) {
      var a, b :| a in Singles(rows) && b in Singles(rows) && a != b && Similar(a, b) && m == PairMerge(a, b);
    }
  }

  lemma PlanAnswers(rows: set<Row>, out: seq<Suggestion>, plan: seq<Merge>)
    requires IdsDistinct(rows) && Carries(out, plan) && forall m :: m in plan <==> Wanted(rows, m)
    ensures Answers(rows, out)
  {
    forall m | m in plan ensures m.group <= rows {
      WantedWithin(rows, m);
    }
    PlanSaid(rows, out, plan);
  }

  // --------------------------------------------------------------- the laws

  lemma {:induction false} CountedOnce<T>(q: seq<T>, x: T)
    requires NoRepeats(q)
    ensures multiset(q)[x] == if x in q then 1 else 0
  {
    if q != [] {
      var init, last := q[..|q| - 1], q[|q| - 1];
      assert q == init + [last];
      CountedOnce(init, x);
      assert last !in init;
    }
  }

  /** Whatever order rows and hash maps come in, the suggestions are the same, payloads included. */
  lemma OrderDoesNotMatter(rows: set<Row>, out: seq<Suggestion>, again: seq<Suggestion>)
    requires Answers(rows, out) && Answers(rows, again)
    ensures multiset(out) == multiset(again)
  {
    forall s ensures multiset(out)[s] == multiset(again)[s] {
      CountedOnce(out, s);
      CountedOnce(again, s);
    }
  }

  /** A row is in at most one exact group, and then in no fuzzy pair; no group is proposed twice. */
  lemma GroupsAreSeparate(rows: set<Row>, m: Merge, n: Merge, r: Row)
    requires Wanted(rows, m) && Wanted(rows, n) && r in m.group && r in n.group
    requires m.tier == Zero || m.group == n.group
    ensures m == n
  {
    if m.tier == Zero {
      var k :| m.group == Group(rows, k);
      if n.tier == Zero {
        var l :| n.group == Group(rows, l);
      } else {
        PairAlone(rows, n, r);
      }
    } else {
      var a, b :| a in Singles(rows) && b in Singles(rows) && a != b && Similar(a, b) && m == PairMerge(a, b);
      if n.tier == Zero {
        var l :| n.group == Group(rows, l);
        PairAlone(rows, m, r);
      } else {
        var c, d :| c in Singles(rows) && d in Singles(rows) && c != d && Similar(c, d) && n == PairMerge(c, d);
        PairSymmetric(a, b);
        assert a in {c, d} && b in {c, d};
      }
    }
  }

  lemma PairAlone(rows: set<Row>, m: Merge, r: Row)
    requires Wanted(rows, m) && m.tier == One && r in m.group
    ensures Alone(rows, r) && |Group(rows, r.key.value)| == 1
  {
    var a, b :| a in Singles(rows) && b in Singles(rows) && a != b && Similar(a, b) && m == PairMerge(a, b);
  }

  /** A payload lists its sources by rising id, without the survivor. */
  lemma PayloadSorted(rows: set<Row>, m: Merge)
    requires IdsDistinct(rows) && Wanted(rows, m) && m.group != {}
    ensures var s := Suggest(m);
            && (forall i, j :: 0 <= i < j < |s.sourceIds| ==> s.sourceIds[i] < s.sourceIds[j])
            && s.canonicalId !in s.sourceIds
            && |s.sourceIds| == |m.group| - 1
  {
    WantedWithin(rows, m);
    var rest := m.group - {Best(m.group)};
    IdsRise(rows, rest);
    forall id | id in Ids(InOrder(rest)) ensures id != Best(m.group).id {
      var r := IdOfRow(InOrder(rest), id);
      InOrderElems(rest);
      assert r in Elems(InOrder(rest));
    }
  }

  lemma {:induction false} IdOfRow(q: seq<Row>, id: int) returns (r: Row)
    requires id in Ids(q)
    ensures r in q && r.id == id
  {
    if q[0].id == id {
      r := q[0];
    } else {
      r := IdOfRow(q[1..], id);
    }
  }

  lemma {:induction false} IdsRise(rows: set<Row>, group: set<Row>)
    requires IdsDistinct(rows) && group <= rows
    ensures |Ids(InOrder(group))| == |group|
    ensures forall i, j :: 0 <= i < j < |Ids(InOrder(group))| ==> Ids(InOrder(group))[i] < Ids(InOrder(group))[j]
  {
    if group != {} {
      var least := Least(group);
      var rest := group - {least};
      IdsRise(rows, rest);
      var ids := Ids(InOrder(rest));
      assert Ids(InOrder(group)) == [least.id] + ids by {
        assert ([least] + InOrder(rest))[1..] == InOrder(rest);
      }
      forall id | id in ids ensures least.id < id {
        var r := IdOfRow(InOrder(rest), id);
        InOrderElems(rest);
        assert r in Elems(InOrder(rest));
      }
      RisesFrom(least.id, ids);
    }
  }

  lemma RisesFrom(least: int, ids: seq<int>)
    requires forall id :: id in ids ==> least < id
    requires forall i, j :: 0 <= i < j < |ids| ==> ids[i] < ids[j]
    ensures var all := [least] + ids; forall i, j :: 0 <= i < j < |all| ==> all[i] < all[j]
  {
    var all := [least] + ids;
    forall i, j | 0 <= i < j < |all| ensures all[i] < all[j] {
      assert all[j] == ids[j - 1] && ids[j - 1] in ids;
      assert i > 0 ==> all[i] == ids[i - 1];
    }
  }
}
